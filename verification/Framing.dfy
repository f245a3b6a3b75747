/** Files made of frames laid end to end, over any way to write one frame and to read the next one. */
module Framing {
  import opened Common

  function Flatten<T>(enc: T -> seq<byte>, es: seq<T>): seq<byte> {
    if es == [] then [] else enc(es[0]) + Flatten(enc, es[1..])
  }

  /** How many frames lie wholly within the first `k` bytes. */
  function Whole<T>(enc: T -> seq<byte>, es: seq<T>, k: int): (n: nat)
    ensures n <= |es|
  {
    if es == [] || |enc(es[0])| > k then 0 else 1 + Whole(enc, es[1..], k - |enc(es[0])|)
  }

  /** Frames are read off the front until one is missing or torn. */
  function Parse<T>(enc: T -> seq<byte>, next: seq<byte> -> Option<T>, bytes: seq<byte>): seq<T>
    decreases |bytes|
  {
    match next(bytes)
    case None => []
    case Some(e) => if 0 < |enc(e)| <= |bytes| then [e] + Parse(enc, next, bytes[|enc(e)|..]) else []
  }

  /** Reading a file that starts with a frame and is cut after `k` bytes gives the frame if it is whole and
      nothing otherwise. */
  ghost predicate ReadsFrames<T(!new)>(enc: T -> seq<byte>, next: seq<byte> -> Option<T>) {
    && next([]) == None
    && (forall e :: 0 < |enc(e)|)
    && (forall e, rest: seq<byte>, k :: 0 <= k <= |enc(e) + rest| ==>
          next((enc(e) + rest)[..k]) == if |enc(e)| <= k then Some(e) else None)
  }

  lemma Assoc(a: seq<byte>, b: seq<byte>, c: seq<byte>)
    ensures (a + b) + c == a + (b + c)
  {
  }

  lemma {:induction false} FlattenAppends<T>(enc: T -> seq<byte>, es: seq<T>, e: T)
    ensures Flatten(enc, es + [e]) == Flatten(enc, es) + enc(e)
  {
    if es == [] {
      assert es + [e] == [e] && [e][1..] == [];
    } else {
      FlattenAppends(enc, es[1..], e);
      assert (es + [e])[1..] == es[1..] + [e];
      Assoc(enc(es[0]), Flatten(enc, es[1..]), enc(e));
    }
  }

  lemma {:induction false} FlattenJoin<T>(enc: T -> seq<byte>, p: seq<T>, q: seq<T>)
    ensures Flatten(enc, p + q) == Flatten(enc, p) + Flatten(enc, q)
  {
    if p == [] {
      assert p + q == q;
    } else {
      FlattenJoin(enc, p[1..], q);
      assert (p + q)[1..] == p[1..] + q;
      Assoc(enc(p[0]), Flatten(enc, p[1..]), Flatten(enc, q));
    }
  }

  /** `Whole` counts the longest prefix of frames that fits. */
  lemma {:induction false} WholeIsLargest<T>(enc: T -> seq<byte>, es: seq<T>, k: nat)
    ensures var n := Whole(enc, es, k);
            && |Flatten(enc, es[..n])| <= k
            && (n < |es| ==> |Flatten(enc, es[..n + 1])| > k)
    decreases |es|
  {
    var n := Whole(enc, es, k);
    if n > 0 {
      WholeIsLargest(enc, es[1..], k - |enc(es[0])|);
      assert es[..n][1..] == es[1..][..n - 1];
      if n < |es| {
        assert es[..n + 1][1..] == es[1..][..n];
      }
    } else if es != [] {
      assert es[..1][1..] == [];
    }
  }

  lemma {:induction false} AllAreWhole<T>(enc: T -> seq<byte>, es: seq<T>)
    ensures Whole(enc, es, |Flatten(enc, es)|) == |es|
    decreases |es|
  {
    if es != [] {
      AllAreWhole(enc, es[1..]);
    }
  }

  /** Whatever is cut off the end of the file, parsing delivers exactly the frames that are wholly there. */
  lemma {:induction false} ParseOfPrefix<T(!new)>(enc: T -> seq<byte>, next: seq<byte> -> Option<T>, es: seq<T>, k: nat)
    requires ReadsFrames(enc, next) && k <= |Flatten(enc, es)|
    ensures Parse(enc, next, Flatten(enc, es)[..k]) == es[..Whole(enc, es, k)]
    decreases |es|
  {
    if es == [] {
      assert Flatten(enc, es)[..k] == [];
    } else {
      var e, rest := es[0], Flatten(enc, es[1..]);
      var bytes := (enc(e) + rest)[..k];
      assert next(bytes) == if |enc(e)| <= k then Some(e) else None;
      if |enc(e)| <= k {
        ParseOfPrefix(enc, next, es[1..], k - |enc(e)|);
        assert bytes[|enc(e)|..] == rest[..k - |enc(e)|];
        assert es[..Whole(enc, es, k)] == [e] + es[1..][..Whole(enc, es[1..], k - |enc(e)|)];
      }
    }
  }

  lemma ParseRoundTrip<T(!new)>(enc: T -> seq<byte>, next: seq<byte> -> Option<T>, es: seq<T>)
    requires ReadsFrames(enc, next)
    ensures Parse(enc, next, Flatten(enc, es)) == es
  {
    ParseOfPrefix(enc, next, es, |Flatten(enc, es)|);
    AllAreWhole(enc, es);
    assert Flatten(enc, es)[..|Flatten(enc, es)|] == Flatten(enc, es);
    assert es[..|es|] == es;
  }

  /** A buffer that starts with `start` and gets one frame after the other. */
  function Grown<T>(enc: T -> seq<byte>, start: seq<byte>, es: seq<T>): seq<byte> {
    if es == [] then start else Grown(enc, start, es[..|es| - 1]) + enc(es[|es| - 1])
  }

  lemma GrownAppend<T>(enc: T -> seq<byte>, start: seq<byte>, es: seq<T>, e: T)
    ensures Grown(enc, start, es + [e]) == Grown(enc, start, es) + enc(e)
  {
    assert (es + [e])[..|es|] == es;
  }

  lemma {:induction false} GrownIs<T>(enc: T -> seq<byte>, start: seq<byte>, es: seq<T>)
    ensures Grown(enc, start, es) == start + Flatten(enc, es)
    decreases |es|
  {
    if es != [] {
      var front, last := es[..|es| - 1], es[|es| - 1];
      GrownIs(enc, start, front);
      assert es == front + [last];
      FlattenAppends(enc, front, last);
      Assoc(start, Flatten(enc, front), enc(last));
    }
  }

  lemma {:induction false} GrownSame<T(!new)>(f: T -> seq<byte>, g: T -> seq<byte>, start: seq<byte>, es: seq<T>)
    requires forall e :: f(e) == g(e)
    ensures Grown(f, start, es) == Grown(g, start, es)
    decreases |es|
  {
    if es != [] {
      GrownSame(f, g, start, es[..|es| - 1]);
    }
  }
}
