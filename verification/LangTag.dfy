/** Directions, and language tags, which are compared without regard to case (jsonld-syntax/src/lang.rs:56-79). */
module LangTag {
  import opened Wrappers

  datatype Direction = Ltr | Rtl

  function LowerChar(c: char): char {
    if 'A' <= c <= 'Z' then (c as int + 32) as char else c
  }

  function Lower(tag: string): (r: string)
    ensures |r| == |tag|
  {
    seq(|tag|, i requires 0 <= i < |tag| => LowerChar(tag[i]))
  }

  predicate SameTag(a: string, b: string) {
    Lower(a) == Lower(b)
  }

  predicate SameOptionalTag(a: Option<string>, b: Option<string>) {
    match (a, b)
    case (Some(x), Some(y)) => SameTag(x, y)
    case (None, None) => true
    case _ => false
  }
}
