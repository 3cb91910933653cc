/** Artifact paths: normalisation, and the composite keys of the browse tree. Paths are
    bytes; the separators are ASCII, so bytes and characters split them alike. */
module Paths {
  import opened Lex

  type Path = Key

  const SLASH: Byte := 47
  const NUL: Byte := 0
  const ROOT_PARENT: Key := [95, 114, 111, 111, 116]

  // --- Reference definition: split at slashes, keep the non-empty segments, join ---

  function Split(p: Key): (r: seq<Key>)
    ensures r != []
  {
    if p == [] then [[]]
    else
      var r := Split(p[..|p| - 1]);
      var c := p[|p| - 1];
      if c == SLASH then r + [[]] else r[..|r| - 1] + [r[|r| - 1] + [c]]
  }

  function NonEmpty(segments: seq<Key>): seq<Key> {
    if segments == [] then []
    else
      NonEmpty(segments[..|segments| - 1])
      + if segments[|segments| - 1] == [] then [] else [segments[|segments| - 1]]
  }

  function Join(segments: seq<Key>): Key {
    if segments == [] then []
    else if |segments| == 1 then segments[0]
    else Join(segments[..|segments| - 1]) + [SLASH] + segments[|segments| - 1]
  }

  function Normalize(p: Key): Key {
    Join(NonEmpty(Split(p)))
  }

  /** The path is still inside a segment (so the next byte extends it). */
  predicate InSegment(p: Key) {
    p != [] && p[|p| - 1] != SLASH
  }

  predicate Clean(segments: seq<Key>) {
    forall i :: 0 <= i < |segments| ==> segments[i] != []
  }

  lemma {:induction false} NonEmptySnoc(segments: seq<Key>, x: Key)
    ensures NonEmpty(segments + [x]) == NonEmpty(segments) + if x == [] then [] else [x]
    ensures Clean(NonEmpty(segments))
  {
    assert (segments + [x])[..|segments|] == segments;
    if segments != [] {
      NonEmptySnoc(segments[..|segments| - 1], segments[|segments| - 1]);
      assert segments[..|segments| - 1] + [segments[|segments| - 1]] == segments;
    }
  }

  lemma JoinSnoc(segments: seq<Key>, x: Key)
    ensures Join(segments + [x]) == if segments == [] then x else Join(segments) + [SLASH] + x
    ensures Clean(segments) && segments != [] ==> Join(segments) != []
  {
    assert (segments + [x])[..|segments|] == segments;
    if segments != [] && Clean(segments) {
      assert segments[0] != [] && segments[|segments| - 1] != [];
    }
  }

  lemma SplitLast(p: Key)
    ensures Split(p)[|Split(p)| - 1] == [] <==> !InSegment(p)
  {
  }

  /** How normalisation grows with one more byte. */
  lemma NormalizeSnoc(p: Key, c: Byte)
    ensures Normalize(p + [c]) ==
            if c == SLASH then Normalize(p)
            else if InSegment(p) || Normalize(p) == [] then Normalize(p) + [c]
            else Normalize(p) + [SLASH] + [c]
    ensures InSegment(p) ==> Normalize(p) != []
  {
    hide Split, NonEmpty, Join;
    var segments := Split(p);
    var init, last := segments[..|segments| - 1], segments[|segments| - 1];
    assert segments == init + [last];
    SplitSnoc(p, c);
    SplitLast(p);
    NonEmptySnoc(init, last);
    NonEmptySnoc(segments, []);
    assert NonEmpty(segments + [[]]) == NonEmpty(segments);
    var kept := NonEmpty(init);
    if last == [] {
      NonEmptySnoc(init, [c]);
      JoinSnoc(kept, [c]);
      assert last + [c] == [c];
      assert NonEmpty(segments) == kept;
      JoinEmpty();
      JoinSnoc(kept, []);
    } else {
      NonEmptySnoc(init, last + [c]);
      JoinSnoc(kept, last);
      JoinSnoc(kept, last + [c]);
      JoinSnoc(kept + [last], []);
      assert (Join(kept) + [SLASH] + last) + [c] == Join(kept) + [SLASH] + (last + [c]);
    }
  }

  lemma SplitSnoc(p: Key, c: Byte)
    ensures var r := Split(p);
            Split(p + [c]) == if c == SLASH then r + [[]] else r[..|r| - 1] + [r[|r| - 1] + [c]]
  {
    assert (p + [c])[..|p|] == p;
  }

  lemma JoinEmpty()
    ensures Join([]) == []
  {
  }

  lemma {:induction false} LeadingSlash(p: Key)
    ensures Normalize([SLASH] + p) == Normalize(p)
  {
    hide Normalize;
    if p == [] {
      NormalizeSnoc([], SLASH);
      assert [] + [SLASH] == [SLASH] + p;
    } else {
      var q, c := p[..|p| - 1], p[|p| - 1];
      LeadingSlash(q);
      NormalizeSnoc(q, c);
      NormalizeSnoc([SLASH] + q, c);
      assert q + [c] == p;
      assert ([SLASH] + q) + [c] == [SLASH] + p;
    }
  }

  // --- Canonical paths ---

  predicate NoDouble(p: Key) {
    forall i :: 0 <= i < |p| - 1 ==> !(p[i] == SLASH && p[i + 1] == SLASH)
  }

  /** No leading, trailing or repeated slash. */
  predicate Canonical(p: Key) {
    p == [] || (p[0] != SLASH && p[|p| - 1] != SLASH && NoDouble(p))
  }

  lemma {:induction false} NormalizeFixes(p: Key)
    requires p == [] || (p[0] != SLASH && NoDouble(p))
    ensures p == Normalize(p) + if p == [] || InSegment(p) then [] else [SLASH]
  {
    if p != [] {
      var q, c := p[..|p| - 1], p[|p| - 1];
      assert p == q + [c];
      assert forall i :: 0 <= i < |q| ==> q[i] == p[i];
      NormalizeFixes(q);
      NormalizeSnoc(q, c);
    }
  }

  lemma {:induction false} NormalizeIsCanonical(p: Key)
    ensures Canonical(Normalize(p))
    ensures forall b :: b != SLASH && b in Normalize(p) ==> b in p
  {
    hide Normalize, InSegment;
    if p == [] {
      EmptyPath();
    } else {
      var q, c := p[..|p| - 1], p[|p| - 1];
      assert p == q + [c];
      NormalizeIsCanonical(q);
      NormalizeSnoc(q, c);
      if c != SLASH {
        CanonicalGrows(Normalize(q), c);
      }
    }
  }

  lemma CanonicalGrows(p: Key, c: Byte)
    requires Canonical(p) && c != SLASH
    ensures Canonical(p + [c]) && (p != [] ==> Canonical(p + [SLASH] + [c]))
  {
  }

  /** Normalising yields the canonical paths and nothing else, and is idempotent. */
  lemma CanonicalIffFixed(p: Key)
    ensures Canonical(p) <==> Normalize(p) == p
    ensures Normalize(Normalize(p)) == Normalize(p)
  {
    NormalizeIsCanonical(p);
    if Canonical(p) {
      NormalizeFixes(p);
    }
    NormalizeFixes(Normalize(p));
  }

  /** The paths that pass the empty-path check and yet mean the root: slashes and nothing else. */
  lemma {:induction false} NormalizesToRootIff(p: Key)
    ensures Normalize(p) == [] <==> forall b :: b in p ==> b == SLASH
  {
    if p == [] {
      EmptyPath();
    } else {
      hide Normalize;
      var q, c := p[..|p| - 1], p[|p| - 1];
      assert p == q + [c];
      NormalizesToRootIff(q);
      NormalizeSnoc(q, c);
      assert forall b :: b in p <==> b in q || b == c;
      if c != SLASH {
        assert c in p;
      }
    }
  }

  method TrimSlashes(path: Key) returns (r: Key)
    ensures Normalize(r) == Normalize(path)
    ensures r == [] || (r[0] != SLASH && r[|r| - 1] != SLASH)
  {
    hide Normalize;
    r := path;
    while r != [] && r[0] == SLASH
      invariant Normalize(r) == Normalize(path)
      decreases |r|
    {
      LeadingSlash(r[1..]);
      assert r == [SLASH] + r[1..];
      r := r[1..];
    }
    while r != [] && r[|r| - 1] == SLASH
      invariant Normalize(r) == Normalize(path)
      invariant r == [] || r[0] != SLASH
      decreases |r|
    {
      NormalizeSnoc(r[..|r| - 1], SLASH);
      assert r == r[..|r| - 1] + [SLASH];
      r := r[..|r| - 1];
    }
  }

  /** `normalize_path`, with its fast path for already clean input. */
  method NormalizePath(path: Key) returns (out: Key)
    ensures out == Normalize(path)
  {
    hide Normalize;
    EmptyPath();
    var trimmed := TrimSlashes(path);
    if NoDouble(trimmed) {
      NormalizeFixes(trimmed);
      return trimmed;
    }
    out := [];
    var prevSlash := false;
    for i := 0 to |trimmed|
      invariant Collapsed(trimmed[..i], out, prevSlash)
      invariant i > 0 ==> Normalize(trimmed[..i]) != []
    {
      CollapseStep(trimmed[..i], trimmed[i], out, prevSlash);
      assert trimmed[..i + 1] == trimmed[..i] + [trimmed[i]];
      if trimmed[i] == SLASH {
        if !prevSlash {
          out := out + [SLASH];
        }
        prevSlash := true;
      } else {
        out := out + [trimmed[i]];
        prevSlash := false;
      }
    }
    assert trimmed[..|trimmed|] == trimmed;
  }

  /** The loop's buffer: the normal form so far, plus the one slash still pending. */
  ghost predicate Collapsed(p: Key, out: Key, prevSlash: bool) {
    && (prevSlash <==> p != [] && p[|p| - 1] == SLASH)
    && out == Normalize(p) + if prevSlash then [SLASH] else []
  }

  lemma CollapseStep(p: Key, c: Byte, out: Key, prevSlash: bool)
    requires Collapsed(p, out, prevSlash)
    requires if p == [] then c != SLASH else Normalize(p) != []
    ensures Collapsed(p + [c], if c == SLASH && prevSlash then out else out + [c], c == SLASH)
    ensures Normalize(p + [c]) != []
  {
    hide Normalize;
    NormalizeSnoc(p, c);
    NormalizeSnoc(p + [c], c);
    if p == [] {
      EmptyPath();
    }
  }

  lemma EmptyPath()
    ensures Normalize([]) == []
  {
  }

  // --- Parents and names ---

  /** The bytes before the last slash; the empty path when there is none. */
  function ParentDir(p: Key): (d: Key)
    ensures d <= p
  {
    if p == [] then [] else if p[|p| - 1] == SLASH then p[..|p| - 1] else ParentDir(p[..|p| - 1])
  }

  /** The bytes after the last slash. */
  function BaseName(p: Key): Key {
    if !InSegment(p) then [] else BaseName(p[..|p| - 1]) + [p[|p| - 1]]
  }

  lemma {:induction false} ParentAndName(p: Key)
    ensures SLASH !in BaseName(p)
    ensures p == if SLASH in p then ParentDir(p) + [SLASH] + BaseName(p) else BaseName(p)
    ensures SLASH !in p ==> ParentDir(p) == []
  {
    if p != [] {
      var q, c := p[..|p| - 1], p[|p| - 1];
      assert p == q + [c];
      if c != SLASH {
        ParentAndName(q);
      }
    }
  }

  function TreeParent(p: Key): Key {
    if p == [] then ROOT_PARENT else ParentDir(p)
  }

  function TreeSortKey(p: Key): Key {
    TreeParent(p) + [NUL] + BaseName(p)
  }

  /** `tree_sk_name`: what follows the last NUL. */
  function SkName(sk: Key): Key {
    if sk == [] || sk[|sk| - 1] == NUL then [] else SkName(sk[..|sk| - 1]) + [sk[|sk| - 1]]
  }

  predicate NulFree(p: Key) {
    NUL !in p
  }

  lemma OneNul(a: Key, b: Key, c: Key, d: Key)
    requires NulFree(a) && NulFree(c)
    requires a + [NUL] + b == c + [NUL] + d
    ensures a == c && b == d
  {
    var s := a + [NUL] + b;
    assert s[|a|] == NUL && s[|c|] == NUL;
    assert forall i :: 0 <= i < |a| ==> s[i] == a[i] && a[i] in a;
    assert forall i :: 0 <= i < |c| ==> s[i] == c[i] && c[i] in c;
    assert |a| == |c|;
    assert a == s[..|a|] && c == s[..|c|];
    assert b == s[|a| + 1..] && d == s[|c| + 1..];
  }

  lemma CanonicalHasName(p: Key)
    requires Canonical(p) && p != []
    ensures BaseName(p) != []
    ensures SLASH in p ==> ParentDir(p) != []
  {
    ParentAndName(p);
    assert SLASH in p ==> p[|ParentDir(p)|] == SLASH;
  }

  lemma {:induction false} NameAfter(parent: Key, name: Key)
    requires SLASH !in name
    ensures ParentDir(parent + [SLASH] + name) == parent
    ensures BaseName(parent + [SLASH] + name) == name
  {
    var p := parent + [SLASH] + name;
    if name == [] {
      assert p[..|p| - 1] == parent;
    } else {
      var init := name[..|name| - 1];
      NameAfter(parent, init);
      assert p[..|p| - 1] == parent + [SLASH] + init;
      assert p[|p| - 1] == name[|name| - 1];
      assert init + [name[|name| - 1]] == name;
    }
  }

  lemma ParentCanonical(p: Key)
    requires Canonical(p)
    ensures Canonical(TreeParent(p))
  {
    ParentAndName(p);
    var d := ParentDir(p);
    if p != [] && d != [] {
      assert forall i :: 0 <= i < |d| ==> d[i] == p[i];
      assert p[|d|] == SLASH;
      assert p[|d| - 1] != SLASH;
    }
  }

  lemma JoinCanonical(parent: Key, name: Key)
    requires Canonical(parent) && parent != [] && name != [] && SLASH !in name
    ensures var p := parent + [SLASH] + name;
            Canonical(p) && p != [] && ParentDir(p) == parent && BaseName(p) == name
  {
    var p := parent + [SLASH] + name;
    NameAfter(parent, name);
    forall i | 0 <= i < |p| - 1
      ensures !(p[i] == SLASH && p[i + 1] == SLASH)
    {
      if i >= |parent| {
        assert p[i + 1] == name[i - |parent|] && name[i - |parent|] in name;
      } else if i < |parent| - 1 {
        assert p[i] == parent[i] && p[i + 1] == parent[i + 1];
      }
    }
    assert p[|p| - 1] == name[|name| - 1] && name[|name| - 1] in name;
  }

  lemma NameCanonical(name: Key)
    requires name != [] && SLASH !in name
    ensures Canonical(name) && ParentDir(name) == [] && BaseName(name) == name
  {
    hide ParentDir, BaseName;
    ParentAndName(name);
    assert forall i :: 0 <= i < |name| ==> name[i] != SLASH;
  }

  /** Parent and name together tell canonical paths apart. */
  lemma PartsTell(p: Key, q: Key)
    requires Canonical(p) && Canonical(q)
    requires TreeParent(p) == TreeParent(q) && BaseName(p) == BaseName(q)
    ensures p == q
  {
    ParentAndName(p);
    ParentAndName(q);
    if p != [] {
      CanonicalHasName(p);
    }
    if q != [] {
      CanonicalHasName(q);
    }
  }

  // --- When a tree key names one path ---

  /** A NUL of the name, but not at its end. */
  predicate SplitsName(p: Key, j: nat) {
    j + 1 < |BaseName(p)| && BaseName(p)[j] == NUL
  }

  /** A NUL in the parent's last segment, but not at the start of it after a slash. */
  predicate SplitsParent(p: Key, i: nat) {
    var parent := TreeParent(p);
    i < |parent| && parent[i] == NUL && SLASH !in parent[i..] && (i > 0 ==> parent[i - 1] != SLASH)
  }

  /** Some NUL of the key, other than the one after the parent, splits it into another canonical
      parent and another name. */
  ghost predicate KeySplits(p: Key) {
    (exists j :: SplitsName(p, j)) || exists i :: SplitsParent(p, i)
  }

  /** The path this split of the key belongs to. */
  lemma SplitPath(p: Key, i: nat) returns (q: Key)
    requires Canonical(p)
    requires var key := TreeSortKey(p);
             && i < |key| - 1 && key[i] == NUL && i != |TreeParent(p)|
             && Canonical(key[..i]) && SLASH !in key[i + 1..]
    ensures Canonical(q) && q != p && TreeSortKey(q) == TreeSortKey(p)
  {
    var key := TreeSortKey(p);
    var parent, name := key[..i], key[i + 1..];
    assert key == parent + [NUL] + name;
    if parent == [] {
      q := name;
      NameCanonical(name);
    } else {
      q := parent + [SLASH] + name;
      JoinCanonical(parent, name);
    }
    assert TreeParent(q) == parent;
  }

  lemma PrefixCanonical(p: Key, i: nat)
    requires Canonical(p) && i <= |p| && (i > 0 ==> p[i - 1] != SLASH)
    ensures Canonical(p[..i])
  {
    assert forall k :: 0 <= k < i ==> p[..i][k] == p[k];
  }

  /** A name appended behind a NUL to a canonical parent, without its slash-free rest. */
  lemma LongerCanonical(parent: Key, front: Key)
    requires Canonical(parent) && SLASH !in front
    ensures Canonical(parent + [NUL] + front)
  {
    var p := parent + [NUL] + front;
    assert forall k :: 0 <= k < |front| ==> front[k] in front;
    assert forall k :: 0 <= k < |p| ==> p[k] == if k < |parent| then parent[k] else if k == |parent| then NUL
                                                else front[k - |parent| - 1];
  }

  lemma SplitInName(p: Key, j: nat) returns (q: Key)
    requires Canonical(p) && SplitsName(p, j)
    ensures Canonical(q) && q != p && TreeSortKey(q) == TreeSortKey(p)
  {
    hide ParentDir, BaseName, Canonical;
    var parent, name := TreeParent(p), BaseName(p);
    ParentAndName(p);
    ParentCanonical(p);
    LongerCanonical(parent, name[..j]);
    var i := |parent| + 1 + j;
    var key := parent + [NUL] + name;
    assert key[..i] == parent + [NUL] + name[..j] && key[i + 1..] == name[j + 1..];
    q := SplitPath(p, i);
  }

  lemma SplitInParent(p: Key, i: nat) returns (q: Key)
    requires Canonical(p) && SplitsParent(p, i)
    ensures Canonical(q) && q != p && TreeSortKey(q) == TreeSortKey(p)
  {
    hide ParentDir, BaseName, Canonical;
    var parent, name := TreeParent(p), BaseName(p);
    ParentAndName(p);
    ParentCanonical(p);
    PrefixCanonical(parent, i);
    var key := parent + [NUL] + name;
    assert key[..i] == parent[..i];
    assert key[i + 1..] == parent[i..][1..] + [NUL] + name;
    q := SplitPath(p, i);
  }

  lemma SplitsElsewhere(p: Key) returns (q: Key)
    requires Canonical(p) && KeySplits(p)
    ensures Canonical(q) && q != p && TreeSortKey(q) == TreeSortKey(p)
  {
    hide TreeSortKey, Canonical;
    if j :| SplitsName(p, j) {
      q := SplitInName(p, j);
    } else {
      var i :| SplitsParent(p, i);
      q := SplitInParent(p, i);
    }
  }

  lemma SharedKeySplits(p: Key, q: Key)
    requires Canonical(p) && Canonical(q) && p != q && TreeSortKey(p) == TreeSortKey(q)
    ensures KeySplits(p)
  {
    hide ParentDir, BaseName, Canonical;
    var a, b, c, d := TreeParent(p), BaseName(p), TreeParent(q), BaseName(q);
    ParentCanonical(q);
    ParentAndName(q);
    if |a| == |c| {
      assert a == (a + [NUL] + b)[..|a|] && b == (a + [NUL] + b)[|a| + 1..];
      assert c == (c + [NUL] + d)[..|c|] && d == (c + [NUL] + d)[|c| + 1..];
      PartsTell(p, q);
    } else if |c| < |a| {
      ShorterSplit(a, b, c, d);
      CanonicalEnds(c);
      assert SplitsParent(p, |c|);
    } else {
      RootKeyAlone(p, q);
      CanonicalHasName(q);
      LongerSplit(a, b, c, d);
      assert SplitsName(p, |c| - |a| - 1);
    }
  }

  lemma CanonicalEnds(p: Key)
    requires Canonical(p)
    ensures p != [] ==> p[|p| - 1] != SLASH
  {
  }

  lemma ShorterSplit(a: Key, b: Key, c: Key, d: Key)
    requires a + [NUL] + b == c + [NUL] + d && |c| < |a| && SLASH !in d
    ensures a[|c|] == NUL && SLASH !in a[|c|..] && c == a[..|c|]
  {
    var key := a + [NUL] + b;
    assert key[|c|] == NUL;
    assert forall k :: 0 <= k < |a| ==> a[k] == key[k];
    forall k | |c| < k < |a|
      ensures a[k] != SLASH
    {
      assert a[k] == (c + [NUL] + d)[k] == d[k - |c| - 1];
      assert d[k - |c| - 1] in d;
    }
    assert forall k :: 0 <= k < |c| ==> c[k] == (c + [NUL] + d)[k] == a[k];
  }

  lemma LongerSplit(a: Key, b: Key, c: Key, d: Key)
    requires a + [NUL] + b == c + [NUL] + d && |c| > |a| && d != []
    ensures |c| - |a| - 1 < |b| - 1 && b[|c| - |a| - 1] == NUL
  {
    assert |a + [NUL] + b| == |c + [NUL] + d|;
    assert (c + [NUL] + d)[|c|] == NUL;
  }

  /** The root's key has one NUL, at its end. */
  lemma RootKeyAlone(p: Key, q: Key)
    requires TreeSortKey(p) == TreeSortKey(q) && |TreeParent(p)| < |TreeParent(q)|
    ensures q != []
  {
    var i := |TreeParent(p)|;
    assert (TreeParent(p) + [NUL] + BaseName(p))[i] == NUL;
    assert forall k :: 0 <= k < |ROOT_PARENT| ==> (ROOT_PARENT + [NUL])[k] == ROOT_PARENT[k] != NUL;
    assert TreeSortKey([]) == ROOT_PARENT + [NUL];
  }

  /** A normalised path has its tree key to itself exactly when no other NUL splits the key. */
  lemma TreeKeyUniqueIff(p: Key)
    requires Canonical(p)
    ensures (forall q :: Canonical(q) && TreeSortKey(q) == TreeSortKey(p) ==> q == p) <==> !KeySplits(p)
  {
    if KeySplits(p) {
      var q := SplitsElsewhere(p);
    } else {
      forall q | Canonical(q) && TreeSortKey(q) == TreeSortKey(p)
        ensures q == p
      {
        if q != p {
          SharedKeySplits(p, q);
        }
      }
    }
  }

  /** Tree keys name one path each, among normalised NUL-free paths. */
  lemma TreeKeysInjective(p: Key, q: Key)
    requires Canonical(p) && Canonical(q) && NulFree(p) && NulFree(q)
    requires TreeSortKey(p) == TreeSortKey(q)
    ensures p == q
  {
    OneNul(TreeParent(p), BaseName(p), TreeParent(q), BaseName(q));
    PartsTell(p, q);
  }

  /** With a NUL inside, two normalised paths can share their key: a NUL b/c and a/b NUL c. */
  lemma NulPathsCollide()
    ensures var p, q: Key := [97, NUL, 98, SLASH, 99], [97, SLASH, 98, NUL, 99];
            Canonical(p) && Canonical(q) && p != q && TreeSortKey(p) == TreeSortKey(q)
  {
    var p, q: Key := [97, NUL, 98, SLASH, 99], [97, SLASH, 98, NUL, 99];
    NameAfter([97, NUL, 98], [99]);
    NameAfter([97], [98, NUL, 99]);
    assert [97, NUL, 98] + [SLASH] + [99] == p;
    assert [97] + [SLASH] + [98, NUL, 99] == q;
  }

  lemma {:induction false} SkNameOf(a: Key, name: Key)
    requires NulFree(name)
    ensures SkName(a + [NUL] + name) == name
  {
    var sk := a + [NUL] + name;
    if name != [] {
      var init := name[..|name| - 1];
      SkNameOf(a, init);
      assert sk[..|sk| - 1] == a + [NUL] + init;
      assert name == init + [name[|name| - 1]];
    }
  }
}
