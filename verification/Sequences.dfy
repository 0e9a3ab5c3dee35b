/** Streams that arrive in chunks. */
module Sequences {

  function Flatten<T>(s: seq<seq<T>>): seq<T> {
    if s == [] then [] else Flatten(s[..|s| - 1]) + s[|s| - 1]
  }

  lemma {:induction false} FlattenPrefix<T>(s: seq<seq<T>>, n: nat)
    requires n <= |s|
    ensures |Flatten(s[..n])| <= |Flatten(s)| && Flatten(s)[..|Flatten(s[..n])|] == Flatten(s[..n])
  {
    if n < |s| {
      FlattenPrefix(s[..|s| - 1], n);
      assert s[..|s| - 1][..n] == s[..n];
    } else {
      assert s[..n] == s;
    }
  }

  lemma FlattenLast<T>(s: seq<seq<T>>, front: seq<seq<T>>, last: seq<T>)
    requires s == front + [last]
    ensures Flatten(s) == Flatten(front) + last
  {
    assert s[..|s| - 1] == front;
  }

  lemma FlattenNext<T>(s: seq<seq<T>>, n: nat)
    requires n < |s|
    ensures Flatten(s[..n + 1]) == Flatten(s[..n]) + s[n]
  {
    assert s[..n + 1][..n] == s[..n];
  }

  /** Where chunk n lies in the stream. */
  lemma FlattenAt<T>(s: seq<seq<T>>, n: nat)
    requires n < |s|
    ensures var from := |Flatten(s[..n])|;
            from + |s[n]| <= |Flatten(s)| && Flatten(s)[from..from + |s[n]|] == s[n]
            && |Flatten(s[..n + 1])| == from + |s[n]|
  {
    FlattenNext(s, n);
    FlattenPrefix(s, n + 1);
    var from := |Flatten(s[..n])|;
    assert Flatten(s)[from..from + |s[n]|] == Flatten(s)[..from + |s[n]|][from..];
  }
}
