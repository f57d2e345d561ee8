/** Namespace names: `Namespace::new` in `crates/agentstategraph-core/src/namespace.rs`. */
module Namespaces {
  const MAX_NAMESPACE_LEN: nat := 64

  predicate NameChar(c: char) {
    'a' <= c <= 'z' || 'A' <= c <= 'Z' || '0' <= c <= '9' || c == '-' || c == '_'
  }

  /** Accepted names are ASCII, so their length in characters is the length in bytes. */
  predicate ValidName(name: string) {
    0 < |name| <= MAX_NAMESPACE_LEN && forall i :: 0 <= i < |name| ==> NameChar(name[i])
  }

  const SMALL: set<char> := {
    'a', 'b', 'c', 'd', 'e', 'f', 'g', 'h', 'i', 'j', 'k', 'l', 'm',
    'n', 'o', 'p', 'q', 'r', 's', 't', 'u', 'v', 'w', 'x', 'y', 'z'}

  const CAPITAL: set<char> := {
    'A', 'B', 'C', 'D', 'E', 'F', 'G', 'H', 'I', 'J', 'K', 'L', 'M',
    'N', 'O', 'P', 'Q', 'R', 'S', 'T', 'U', 'V', 'W', 'X', 'Y', 'Z'}

  const OTHER: set<char> := {
    '0', '1', '2', '3', '4', '5', '6', '7', '8', '9', '-', '_'}

  lemma SmallLetters(c: char)
    ensures c in SMALL <==> 'a' <= c <= 'z'
  {
  }

  lemma CapitalLetters(c: char)
    ensures c in CAPITAL <==> 'A' <= c <= 'Z'
  {
  }

  lemma OtherCharacters(c: char)
    ensures c in OTHER <==> '0' <= c <= '9' || c == '-' || c == '_'
  {
  }

  lemma NameChars(c: char)
    ensures NameChar(c) <==> c in SMALL + CAPITAL + OTHER
  {
    SmallLetters(c);
    CapitalLetters(c);
    OtherCharacters(c);
  }

  /** One to 64 characters, all letters, digits, hyphens or underscores. */
  lemma ValidExactly(name: string)
    ensures ValidName(name) <==> 1 <= |name| <= 64 && forall c :: c in name ==> c in SMALL + CAPITAL + OTHER
  {
    forall c ensures NameChar(c) <==> c in SMALL + CAPITAL + OTHER {
      NameChars(c);
    }
    assert (forall i :: 0 <= i < |name| ==> NameChar(name[i])) <==> forall c :: c in name ==> NameChar(c);
  }
}
