/** Byte-string keys in the order every KV backend scans them, and the two range
    bounds the listing code builds: the NUL-appended successor and the prefix end. */
module Lex {

  datatype Option<+T> = None | Some(value: T)

  type Byte = b: int | 0 <= b < 256

  /** A sort key, as the bytes of its UTF-8 string. */
  type Key = seq<Byte>

  predicate Lt(a: Key, b: Key) {
    b != [] && (a == [] || a[0] < b[0] || (a[0] == b[0] && Lt(a[1..], b[1..])))
  }

  predicate Le(a: Key, b: Key) {
    a == b || Lt(a, b)
  }

  lemma {:induction false} LtTrans(a: Key, b: Key, c: Key)
    requires Lt(a, b) && Lt(b, c)
    ensures Lt(a, c)
  {
    if a != [] && a[0] == b[0] && b[0] == c[0] {
      LtTrans(a[1..], b[1..], c[1..]);
    }
  }

  lemma {:induction false} LtIrreflexive(a: Key)
    ensures !Lt(a, a)
  {
    if a != [] {
      LtIrreflexive(a[1..]);
    }
  }

  lemma {:induction false} LtTotal(a: Key, b: Key)
    ensures a == b || Lt(a, b) || Lt(b, a)
  {
    if a != [] && b != [] && a[0] == b[0] {
      LtTotal(a[1..], b[1..]);
      if a[1..] == b[1..] {
        assert a == [a[0]] + a[1..] && b == [b[0]] + b[1..];
      }
    }
  }

  /** The three order laws at once, for proofs that compare many keys. */
  lemma OrderLaws()
    ensures forall a: Key, b: Key, c: Key {:trigger Lt(a, b), Lt(b, c)} :: Lt(a, b) && Lt(b, c) ==> Lt(a, c)
    ensures forall a: Key {:trigger Lt(a, a)} :: !Lt(a, a)
    ensures forall a: Key, b: Key {:trigger Lt(a, b)} :: a == b || Lt(a, b) || Lt(b, a)
  {
    forall a: Key, b: Key, c: Key | Lt(a, b) && Lt(b, c)
      ensures Lt(a, c)
    {
      LtTrans(a, b, c);
    }
    forall a: Key
      ensures !Lt(a, a)
    {
      LtIrreflexive(a);
    }
    forall a: Key, b: Key
      ensures a == b || Lt(a, b) || Lt(b, a)
    {
      LtTotal(a, b);
    }
  }

  /** Appending a NUL gives the least key above `a`: a scan from it misses nothing. */
  lemma {:induction false} NulIsSuccessor(a: Key, k: Key)
    ensures Lt(a, k) <==> Le(a + [0], k)
  {
    if a == [] {
      assert a + [0] == [0] && [0][1..] == [];
      if k != [] {
        assert k == [k[0]] + k[1..];
        assert k[1..] == [] || Lt([], k[1..]);
      }
    } else if k != [] && a[0] == k[0] {
      NulIsSuccessor(a[1..], k[1..]);
      assert (a + [0])[1..] == a[1..] + [0];
      assert k == [k[0]] + k[1..] && a + [0] == [a[0]] + (a[1..] + [0]);
    }
  }

  // --- Prefix bounds ---

  /** The exclusive upper bound of the keys that start with `p`. */
  function PrefixEnd(p: Key): Option<Key> {
    if p == [] then None
    else if p[|p| - 1] < 255 then Some(p[..|p| - 1] + [p[|p| - 1] + 1])
    else PrefixEnd(p[..|p| - 1])
  }

  method ComputePrefixEnd(p: Key) returns (end: Option<Key>)
    ensures end == PrefixEnd(p)
  {
    var bytes := p;
    while bytes != []
      invariant PrefixEnd(bytes) == PrefixEnd(p)
      decreases |bytes|
    {
      var last := bytes[|bytes| - 1];
      if last < 255 {
        assert bytes[|bytes| - 1 := last + 1] == bytes[..|bytes| - 1] + [last + 1];
        return Some(bytes[|bytes| - 1 := last + 1]);
      }
      bytes := bytes[..|bytes| - 1];
    }
    return None;
  }

  predicate InBound(k: Key, end: Option<Key>) {
    end.Some? ==> Lt(k, end.value)
  }

  /** Peeling the common first byte off a non-empty prefix commutes with `PrefixEnd`. */
  lemma {:induction false} PrefixEndCons(p: Key)
    requires p != []
    ensures PrefixEnd(p[1..]).Some? ==> PrefixEnd(p) == Some([p[0]] + PrefixEnd(p[1..]).value)
    ensures PrefixEnd(p[1..]).None? ==> PrefixEnd(p) == if p[0] < 255 then Some([p[0] + 1]) else None
  {
    if |p| == 1 {
      assert p[..0] == [] && PrefixEnd(p[..0]) == None;
      if p[0] < 255 {
        assert p[..0] + [p[0] + 1] == [p[0] + 1];
      }
    } else {
      var init := p[..|p| - 1];
      assert init[1..] == p[1..][..|p| - 2];
      if p[|p| - 1] < 255 {
        assert p[..|p| - 1] + [p[|p| - 1] + 1] == [p[0]] + (p[1..][..|p| - 2] + [p[|p| - 1] + 1]);
      } else {
        PrefixEndCons(init);
      }
    }
  }

  lemma PrefixCons(p: Key, k: Key)
    requires p != [] && k != []
    ensures p <= k <==> p[0] == k[0] && p[1..] <= k[1..]
  {
    assert p == [p[0]] + p[1..] && k == [k[0]] + k[1..];
    if p <= k {
      assert k[1..][..|p| - 1] == p[1..];
    }
    if p[0] == k[0] && p[1..] <= k[1..] {
      assert k[..|p|] == [k[0]] + k[1..][..|p| - 1];
    }
  }

  lemma InBoundCons(p: Key, k: Key)
    requires p != [] && k != []
    ensures InBound(k, PrefixEnd(p)) <==> k[0] < p[0] || (k[0] == p[0] && InBound(k[1..], PrefixEnd(p[1..])))
  {
    PrefixEndCons(p);
    if PrefixEnd(p[1..]).Some? {
      var end := [p[0]] + PrefixEnd(p[1..]).value;
      assert PrefixEnd(p).value == end;
      assert end[1..] == PrefixEnd(p[1..]).value;
      assert Lt(k, end) <==> k[0] < p[0] || (k[0] == p[0] && Lt(k[1..], end[1..]));
    } else if p[0] < 255 {
      var end := [p[0] + 1];
      assert PrefixEnd(p).value == end;
      assert end[1..] == [];
      assert Lt(k, end) <==> k[0] < p[0] + 1;
    } else {
      var first: Byte := k[0];
      assert PrefixEnd(p) == None && first <= p[0];
    }
  }

  /** The range from `p` up to `PrefixEnd(p)` holds exactly the keys that start with
      `p`, including when the prefix is empty or all 0xFF and there is no bound. */
  lemma {:induction false} PrefixRange(p: Key, k: Key)
    ensures p <= k <==> Le(p, k) && InBound(k, PrefixEnd(p))
  {
    if p == [] {
      assert Le(p, k);
    } else if k == [] {
    } else {
      PrefixEndCons(p);
      PrefixRange(p[1..], k[1..]);
      assert p == [p[0]] + p[1..] && k == [k[0]] + k[1..];
      PrefixCons(p, k);
      InBoundCons(p, k);
      assert Le(p, k) <==> p[0] < k[0] || (p[0] == k[0] && Le(p[1..], k[1..])) by {
        assert p == [p[0]] + p[1..] && k == [k[0]] + k[1..];
      }
    }
  }

  /** Once a scan at or above the prefix leaves it, it never re-enters it. */
  lemma PrefixConvex(p: Key, k: Key, later: Key)
    requires Le(p, k) && Lt(k, later) && p <= later
    ensures p <= k
  {
    PrefixRange(p, k);
    PrefixRange(p, later);
    if PrefixEnd(p).Some? {
      LtTrans(k, later, PrefixEnd(p).value);
    }
  }
}
