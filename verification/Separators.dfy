/** Looking for NUL, the separator of address keys and execution ids. */
module Separators {
  import opened Wrappers
  import opened Utf16

  /** `s.indexOf("\x00", start)` */
  function IndexOfNul(s: Text, start: nat): (index: Option<nat>)
    requires start <= |s|
    ensures index.None? ==> NUL !in s[start..]
    ensures index.Some? ==> start <= index.value < |s| && s[index.value] == NUL && NUL !in s[start..index.value]
    decreases |s| - start
  {
    if start == |s| then None
    else if s[start] == NUL then Some(start)
    else
      assert s[start..] == [s[start]] + s[start + 1..];
      var later := IndexOfNul(s, start + 1);
      assert later.Some? ==> s[start..later.value] == [s[start]] + s[start + 1..later.value];
      later
  }

  /** The first NUL after a NUL-free stretch is the one that follows it. */
  lemma {:induction false} FirstNul(s: Text, start: nat, end: nat)
    requires start <= end < |s| && s[end] == NUL && NUL !in s[start..end]
    ensures IndexOfNul(s, start) == Some(end)
    decreases end - start
  {
    if start < end {
      assert s[start..end] == [s[start]] + s[start + 1..end];
      FirstNul(s, start + 1, end);
    }
  }

  lemma {:induction false} NoLaterThan(s: Text, start: nat, end: nat)
    requires start <= end < |s| && s[end] == NUL
    ensures IndexOfNul(s, start).Some? && IndexOfNul(s, start).value <= end
    decreases end - start
  {
    if s[start] != NUL {
      NoLaterThan(s, start + 1, end);
    }
  }

  function CountNul(s: Text): nat {
    if s == [] then 0 else (if s[0] == NUL then 1 else 0) + CountNul(s[1..])
  }

  lemma {:induction false} CountAdds(s: Text, t: Text)
    ensures CountNul(s + t) == CountNul(s) + CountNul(t)
  {
    if s == [] {
      assert s + t == t;
    } else {
      assert (s + t)[1..] == s[1..] + t;
      CountAdds(s[1..], t);
    }
  }

  lemma {:induction false} CountNone(s: Text)
    ensures CountNul(s) == 0 <==> NUL !in s
  {
    if s != [] {
      CountNone(s[1..]);
    }
  }

  lemma CountSplits(s: Text, at: nat)
    requires at < |s| && s[at] == NUL && NUL !in s[..at]
    ensures CountNul(s) == 1 + CountNul(s[at + 1..])
  {
    assert s == s[..at] + ([NUL] + s[at + 1..]);
    CountAdds(s[..at], [NUL] + s[at + 1..]);
    CountNone(s[..at]);
    assert ([NUL] + s[at + 1..])[1..] == s[at + 1..];
  }
}
