/** Searching in byte strings, as both text codecs do. */
module Texts {
  import opened Options

  /** Position of the first `c`, if any. */
  function IndexOf<T(==)>(s: seq<T>, c: T): (k: Option<nat>)
    ensures k.Some? ==> k.value < |s| && s[k.value] == c && c !in s[..k.value]
    ensures k.None? <==> c !in s
  {
    if s == [] then None
    else if s[0] == c then Some(0)
    else
      var k := IndexOf(s[1..], c);
      assert s == [s[0]] + s[1..];
      assert k.Some? ==> s[..k.value + 1] == [s[0]] + s[1..][..k.value];
      if k.None? then None else Some(k.value + 1)
  }

  /** The first occurrence is the only candidate. */
  lemma {:induction false} FirstIsUnique<T>(a: seq<T>, c: T, b: seq<T>)
    requires c !in a
    ensures IndexOf(a + [c] + b, c) == Some(|a|)
  {
    if a != [] {
      FirstIsUnique(a[1..], c, b);
      assert (a + [c] + b)[1..] == a[1..] + [c] + b;
    }
  }
}
