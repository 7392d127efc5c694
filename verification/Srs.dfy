/** The review deck: SM-2 scheduling with ease and intervals over reals. */
module Srs {
  import opened Options

  type Id = string

  const MIN_EASE := 1.3
  const DAY := 86400

  /** A row of `srs`; times are seconds. */
  datatype Card = Card(ease: real, intervalDays: int, reps: nat, dueAt: int, lastReviewed: Option<int>)

  datatype ReviewError = MemoryNotFound | NotInDeck | BadGrade(grade: int)

  function Enrolled(now: int): Card {
    Card(2.5, 0, 0, now, None)
  }

  /** math.Round: half away from zero. */
  function Round(x: real): int {
    if x >= 0.0 then (x + 0.5).Floor else -((-x + 0.5).Floor)
  }

  function Max(a: int, b: int): int {
    if a < b then b else a
  }

  predicate ValidGrade(grade: int) {
    0 <= grade <= 5
  }

  predicate Pass(grade: int) {
    grade >= 3
  }

  function EaseChange(q: real): real {
    0.1 - (5.0 - q) * (0.08 + (5.0 - q) * 0.02)
  }

  /** The ease after a grade, floored. */
  function NextEase(ease: real, grade: int): real {
    var e := ease + EaseChange(grade as real);
    if e < MIN_EASE then MIN_EASE else e
  }

  function Times(days: int, ease: real): real {
    days as real * ease
  }

  function Stretched(days: int, ease: real): int {
    Max(Round(Times(days, ease)), 1)
  }

  function NextInterval(c: Card): int {
    if c.reps == 0 then 1
    else if c.reps == 1 then 6
    else Stretched(c.intervalDays, c.ease)
  }

  /** One review of a card. */
  function Review(c: Card, grade: int, now: int): Card {
    var ease := NextEase(c.ease, grade);
    if !Pass(grade) then Card(ease, 0, 0, now, Some(now))
    else Card(ease, NextInterval(c), c.reps + 1, now + NextInterval(c) * DAY, Some(now))
  }

  /** What a caller may ask of the deck. */
  datatype Op = Enrol(id: Id, at: int) | Drop(id: Id) | Mark(id: Id, grade: int, at: int)

  function Step(memories: set<Id>, cards: map<Id, Card>, op: Op): map<Id, Card> {
    match op
    case Enrol(id, at) => if id !in memories || id in cards then cards else cards[id := Enrolled(at)]
    case Drop(id) => cards - {id}
    case Mark(id, grade, at) =>
      if !ValidGrade(grade) || id !in cards then cards else cards[id := Review(cards[id], grade, at)]
  }

  class Deck {
    var memories: set<Id>
    var cards: map<Id, Card>

    constructor (memories: set<Id>)
      ensures this.memories == memories && cards == map[]
    {
      this.memories, cards := memories, map[];
    }

    /** AddToReview: a card already in the deck keeps its schedule. */
    method AddToReview(id: Id, now: int) returns (r: Result<Card, ReviewError>)
      modifies this`cards
      ensures cards == Step(memories, old(cards), Enrol(id, now))
      ensures id !in memories ==> r == Err(MemoryNotFound) && cards == old(cards)
      ensures id in memories ==>
        id in cards && r == Ok(cards[id]) && cards == old(cards)[id := cards[id]]
        && cards[id] == if id in old(cards) then old(cards)[id] else Card(2.5, 0, 0, now, None)
    {
      if id !in memories {
        return Err(MemoryNotFound);
      }
      if id !in cards {
        cards := cards[id := Enrolled(now)];
      }
      r := Ok(cards[id]);
    }

    method RemoveFromReview(id: Id)
      modifies this`cards
      ensures cards == Step(memories, old(cards), Drop(id))
    {
      cards := cards - {id};
    }

    /** Grade: the fields are reassigned one by one, then the row is written back. */
    method Grade(id: Id, grade: int, now: int) returns (r: Result<Card, ReviewError>)
      modifies this`cards
      ensures cards == Step(memories, old(cards), Mark(id, grade, now))
      ensures grade < 0 || grade > 5 ==> r == Err(BadGrade(grade)) && cards == old(cards)
      ensures 0 <= grade <= 5 && id !in old(cards) ==> r == Err(NotInDeck) && cards == old(cards)
      ensures 0 <= grade <= 5 && id in old(cards) ==>
        r == Ok(Review(old(cards)[id], grade, now)) && cards == old(cards)[id := r.value]
      ensures 0 <= grade < 3 && id in old(cards) ==> r.value.reps == 0 && r.value.dueAt == now
      ensures 3 <= grade <= 5 && id in old(cards) ==>
        r.value.reps == old(cards)[id].reps + 1 && r.value.dueAt == now + r.value.intervalDays * 86400
    {
      if grade < 0 || grade > 5 {
        return Err(BadGrade(grade));
      }
      if id !in cards {
        return Err(NotInDeck);
      }
      var st := cards[id];
      if grade < 3 {
        st := st.(reps := 0, intervalDays := 0, dueAt := now);
      } else {
        st := st.(reps := st.reps + 1);
        if st.reps == 1 {
          st := st.(intervalDays := 1);
        } else if st.reps == 2 {
          st := st.(intervalDays := 6);
        } else {
          st := st.(intervalDays := Stretched(st.intervalDays, st.ease));
        }
        st := st.(dueAt := now + st.intervalDays * DAY);
      }
      st := st.(ease := st.ease + EaseChange(grade as real));
      if st.ease < MIN_EASE {
        st := st.(ease := MIN_EASE);
      }
      st := st.(lastReviewed := Some(now));
      assert st.ease == NextEase(old(cards)[id].ease, grade);
      assert st.intervalDays == if Pass(grade) then NextInterval(old(cards)[id]) else 0;
      cards := cards[id := st];
      r := Ok(st);
    }
  }

  // ---- every grade sequence from enrolment ----

  datatype Graded = Graded(grade: int, at: int)

  function ReviewAll(c: Card, history: seq<Graded>): Card
    decreases |history|
  {
    if history == [] then c
    else
      var last := history[|history| - 1];
      Review(ReviewAll(c, history[..|history| - 1]), last.grade, last.at)
  }

  /** Passes since the last lapse. */
  function Streak(history: seq<Graded>): nat
    decreases |history|
  {
    if history == [] || !Pass(history[|history| - 1].grade) then 0
    else 1 + Streak(history[..|history| - 1])
  }

  function Pow(base: real, n: nat): real {
    if n == 0 then 1.0 else base * Pow(base, n - 1)
  }

  /** What scheduling keeps: the floor on ease, the first intervals, and growth after them. */
  ghost predicate CardOk(c: Card) {
    && c.ease >= MIN_EASE
    && (c.reps == 0 ==> c.intervalDays == 0)
    && (c.reps == 1 ==> c.intervalDays == 1)
    && (c.reps == 2 ==> c.intervalDays == 6)
    && (c.reps >= 2 ==> c.intervalDays as real >= 6.0 * Pow(1.2, c.reps - 2))
  }

  lemma {:induction false} PowAtLeastOne(n: nat)
    ensures Pow(1.2, n) >= 1.0
  {
    if n > 0 {
      PowAtLeastOne(n - 1);
    }
  }

  lemma RoundNear(x: real)
    requires x >= 0.0
    ensures x - 0.5 < Round(x) as real <= x + 0.5
  {
  }

  lemma MulMonotone(a: real, b: real, x: real)
    requires a <= b && x >= 0.0
    ensures x * a <= x * b
  {
  }

  lemma TimesAtLeast(days: int, ease: real)
    requires days >= 0 && ease >= MIN_EASE
    ensures Times(days, ease) >= days as real * MIN_EASE
  {
    MulMonotone(MIN_EASE, ease, days as real);
  }

  lemma StretchGrows(days: int, ease: real)
    requires days >= 6 && ease >= MIN_EASE
    ensures Stretched(days, ease) > days && Stretched(days, ease) as real >= 1.2 * days as real
    ensures Times(days, ease) - 0.5 < Stretched(days, ease) as real <= Times(days, ease) + 0.5
  {
    TimesAtLeast(days, ease);
    RoundGrows(days, Times(days, ease));
  }

  lemma RoundGrows(days: int, x: real)
    requires days >= 6 && x >= days as real * MIN_EASE
    ensures Max(Round(x), 1) == Round(x) > days && Round(x) as real >= 1.2 * days as real
    ensures x - 0.5 < Round(x) as real <= x + 0.5
  {
    RoundNear(x);
  }

  /** From the second pass on, a pass multiplies the interval by the ease, to the nearest day (half
      a day counts as one), and so by at least 1.2. */
  lemma PassGrows(c: Card)
    requires CardOk(c) && c.reps >= 2
    ensures NextInterval(c) > c.intervalDays
    ensures NextInterval(c) as real >= 1.2 * c.intervalDays as real
    ensures var exact := c.intervalDays as real * c.ease; exact - 0.5 < NextInterval(c) as real <= exact + 0.5
  {
    PowAtLeastOne(c.reps - 2);
    StretchGrows(c.intervalDays, c.ease);
  }

  /** Ease follows the grades: 4 leaves it, 5 adds a tenth, and a better grade never leaves a card
      with less ease than a worse one. */
  lemma EaseFollowsGrades(ease: real, worse: int, better: int)
    requires ease >= MIN_EASE && ValidGrade(worse) && ValidGrade(better) && worse <= better
    ensures MIN_EASE <= NextEase(ease, worse) <= NextEase(ease, better) <= ease + 0.1
    ensures NextEase(ease, 4) == ease && NextEase(ease, 5) == ease + 0.1
    ensures worse < better && NextEase(ease, better) > MIN_EASE ==> NextEase(ease, worse) < NextEase(ease, better)
  {
    EaseTable(ease, worse);
    EaseTable(ease, better);
  }

  lemma EaseTable(ease: real, grade: int)
    requires ValidGrade(grade)
    ensures var drop := [0.8, 0.54, 0.32, 0.14, 0.0, -0.1][grade];
      NextEase(ease, grade) == if ease - drop < MIN_EASE then MIN_EASE else ease - drop
  {
    var q := grade as real;
    if grade == 0 { assert q == 0.0; }
    else if grade == 1 { assert q == 1.0; }
    else if grade == 2 { assert q == 2.0; }
    else if grade == 3 { assert q == 3.0; }
    else if grade == 4 { assert q == 4.0; }
    else { assert q == 5.0; }
  }

  lemma ReviewKeepsOk(c: Card, grade: int, now: int)
    requires CardOk(c)
    ensures CardOk(Review(c, grade, now))
  {
    if Pass(grade) && c.reps >= 2 {
      PassGrows(c);
      assert Pow(1.2, c.reps - 1) == 1.2 * Pow(1.2, c.reps - 2);
    }
  }

  /** A new card has an ease of 2.5 and is due at once. After any grades, repetitions are the current
      streak, the ease is at least 1.3, a streak of k >= 2 passes has earned an interval of at least
      6 * 1.2^(k-2) days, and the card is due that many days after its last review. */
  lemma {:induction false} EveryHistory(enrolledAt: int, history: seq<Graded>)
    ensures var c := ReviewAll(Enrolled(enrolledAt), history);
      && CardOk(c) && c.reps == Streak(history) && c.ease >= 1.3
      && (history == [] ==> c == Card(2.5, 0, 0, enrolledAt, None))
      && (history != [] ==> c.dueAt == history[|history| - 1].at + c.intervalDays * 86400)
      && (history != [] ==> c.lastReviewed == Some(history[|history| - 1].at))
    decreases |history|
  {
    if history != [] {
      var last := history[|history| - 1];
      var before := history[..|history| - 1];
      EveryHistory(enrolledAt, before);
      ReviewKeepsOk(ReviewAll(Enrolled(enrolledAt), before), last.grade, last.at);
    }
  }

  /** Each pass after the second strictly lengthens the interval, whatever came before. */
  lemma StreakLengthens(enrolledAt: int, history: seq<Graded>, grade: int, now: int)
    requires Streak(history) >= 2 && Pass(grade)
    ensures var c := ReviewAll(Enrolled(enrolledAt), history);
      ReviewAll(Enrolled(enrolledAt), history + [Graded(grade, now)]).intervalDays > c.intervalDays
  {
    EveryHistory(enrolledAt, history);
    PassGrows(ReviewAll(Enrolled(enrolledAt), history));
    assert (history + [Graded(grade, now)])[..|history|] == history;
  }

  /** A lapse forgets the schedule: what follows it is spaced as if newly enrolled, and at most
      the ease remembers. */
  lemma LapseForgets(enrolledAt: int, history: seq<Graded>, grade: int, now: int)
    requires !Pass(grade)
    ensures var c := ReviewAll(Enrolled(enrolledAt), history + [Graded(grade, now)]);
      && c.reps == 0 && c.intervalDays == 0 && c.dueAt == now
      && NextInterval(c) == 1 && NextInterval(Review(c, 3, now)) == 6
  {
    EveryHistory(enrolledAt, history + [Graded(grade, now)]);
  }

  // ---- every deck ----

  /** The deck after the operations, from an empty one. */
  function Play(memories: set<Id>, ops: seq<Op>): map<Id, Card>
    decreases |ops|
  {
    if ops == [] then map[] else Step(memories, Play(memories, ops[..|ops| - 1]), ops[|ops| - 1])
  }

  function CardOf(memories: set<Id>, ops: seq<Op>, id: Id): Option<Card> {
    var cards := Play(memories, ops);
    if id in cards then Some(cards[id]) else None
  }

  /** The operations on one memory since it was last dropped. */
  function Story(ops: seq<Op>, id: Id): seq<Op>
    decreases |ops|
  {
    if ops == [] || ops[|ops| - 1] == Drop(id) then []
    else
      var before := Story(ops[..|ops| - 1], id);
      if ops[|ops| - 1].id == id then before + [ops[|ops| - 1]] else before
  }

  lemma PlayOneMore(memories: set<Id>, ops: seq<Op>, op: Op)
    ensures Play(memories, ops + [op]) == Step(memories, Play(memories, ops), op)
  {
    assert (ops + [op])[..|ops|] == ops;
  }

  /** A card is the work of its own story: nothing done to other cards, and nothing before the
      memory was last dropped, has left a trace. */
  lemma {:induction false} CardIsItsStory(memories: set<Id>, ops: seq<Op>, id: Id)
    ensures CardOf(memories, ops, id) == CardOf(memories, Story(ops, id), id)
    decreases |ops|
  {
    if ops != [] {
      var last, before := ops[|ops| - 1], ops[..|ops| - 1];
      CardIsItsStory(memories, before, id);
      if last.id == id && last != Drop(id) {
        PlayOneMore(memories, Story(before, id), last);
      }
    }
  }

  lemma {:induction false} StorySinceDrop(past: seq<Op>, rest: seq<Op>, id: Id)
    ensures Story(past + [Drop(id)] + rest, id) == Story(rest, id)
    decreases |rest|
  {
    var ops := past + [Drop(id)] + rest;
    if rest != [] {
      assert ops[..|ops| - 1] == past + [Drop(id)] + rest[..|rest| - 1];
      StorySinceDrop(past, rest[..|rest| - 1], id);
    }
  }

  /** Removing a card forgets it: whatever follows goes as if nothing had come before. */
  lemma RemovalForgets(memories: set<Id>, past: seq<Op>, rest: seq<Op>, id: Id)
    ensures CardOf(memories, past + [Drop(id)] + rest, id) == CardOf(memories, rest, id)
  {
    CardIsItsStory(memories, past + [Drop(id)] + rest, id);
    CardIsItsStory(memories, rest, id);
    StorySinceDrop(past, rest, id);
  }

  /** Every card of every deck has been enrolled, and graded since, and by nothing else. */
  lemma {:induction false} CardHasHistory(memories: set<Id>, ops: seq<Op>, id: Id)
      returns (at: int, history: seq<Graded>)
    requires id in Play(memories, ops)
    ensures id in memories && Play(memories, ops)[id] == ReviewAll(Enrolled(at), history)
    decreases |ops|
  {
    var last, before := ops[|ops| - 1], ops[..|ops| - 1];
    var cards := Play(memories, before);
    if id !in cards {
      at, history := last.at, [];
    } else {
      at, history := CardHasHistory(memories, before, id);
      if last.Mark? && last.id == id && ValidGrade(last.grade) {
        var longer := history + [Graded(last.grade, last.at)];
        assert longer[..|history|] == history;
        history := longer;
      }
    }
  }

  /** So in every deck the ease is at least 1.3 and the intervals are as scheduled. */
  lemma DeckKeepsCards(memories: set<Id>, ops: seq<Op>, id: Id)
    requires id in Play(memories, ops)
    ensures CardOk(Play(memories, ops)[id])
  {
    var at, history := CardHasHistory(memories, ops, id);
    EveryHistory(at, history);
  }
}
