/** Texts written out in ASCII, and texts joined. */
module Texts {
  import opened Utf16

  function Ascii(s: string): (t: Text)
    requires forall i :: 0 <= i < |s| ==> s[i] as int < 0x80
    ensures |t| == |s|
    ensures forall i :: 0 <= i < |s| ==> t[i] == s[i] as int
  {
    seq(|s|, i requires 0 <= i < |s| => s[i] as int)
  }

  lemma AsciiConcat(s: string, t: string)
    requires forall i :: 0 <= i < |s| ==> s[i] as int < 0x80
    requires forall i :: 0 <= i < |t| ==> t[i] as int < 0x80
    ensures Ascii(s) + Ascii(t) == Ascii(s + t)
  {
  }

  /** Parts with a separator between each two. */
  function Join(parts: seq<Text>, separator: Text): Text {
    if parts == [] then []
    else if |parts| == 1 then parts[0]
    else parts[0] + separator + Join(parts[1..], separator)
  }
}
