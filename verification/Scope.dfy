/** Taxonomy authorization: which dotted branches an identity may read, write or know of. */
module Scopes {

  datatype Scope = Scope(all: bool, read: seq<string>, write: seq<string>, titlesVisible: seq<string>) {
    predicate CanRead(taxonomy: string) {
      all || PrefixMatch(read, taxonomy)
    }

    predicate CanWrite(taxonomy: string) {
      all || PrefixMatch(write, taxonomy)
    }

    predicate TitleVisible(taxonomy: string) {
      all || PrefixMatch(read, taxonomy) || PrefixMatch(titlesVisible, taxonomy)
    }
  }

  /** `taxonomy` is the branch `prefix` or lies under it. */
  predicate Under(taxonomy: string, prefix: string) {
    taxonomy == prefix || prefix + "." <= taxonomy
  }

  predicate PrefixMatch(prefixes: seq<string>, taxonomy: string) {
    exists p | p in prefixes :: Under(taxonomy, p)
  }
}
