/**
 * Destination file names of an export (lib.js): `zpad`, the shared pad width,
 * `path.basename`, `path.join`, and the name `<zero-padded position>. <basename>`.
 */
module Naming {
  import opened Digits

  /** The width `zpad` pads to when called without one. */
  const DefaultPadWidth: int := 2

  function Zeros(k: nat): (z: string)
    ensures |z| == k && forall i :: 0 <= i < k ==> z[i] == '0'
  {
    if k == 0 then [] else "0" + Zeros(k - 1)
  }

  /** `s` preceded by as many `'0'`s as it takes to reach `width` characters. */
  function Padded(s: string, width: int): string {
    if |s| >= width then s else Zeros(width - |s|) + s
  }

  /**
   * `zpad`: prepends `'0'` one character at a time until the string has `width`
   * characters. The result keeps `s` as its suffix, adds only zeros, and is `s`
   * itself when `s` is already wide enough. The source applies `toString()` to
   * its argument first; callers here pass the decimal string.
   */
  method ZeroPad(s: string, width: int := DefaultPadWidth) returns (r: string)
    ensures |r| == if width > |s| then width else |s|
    ensures |r| >= |s| && r[|r| - |s|..] == s
    ensures forall k :: 0 <= k < |r| - |s| ==> r[k] == '0'
    ensures |s| >= width ==> r == s
    ensures r == Padded(s, width)
  {
    r := s;
    while |r| < width
      invariant |s| <= |r| <= if width > |s| then width else |s|
      invariant r == Zeros(|r| - |s|) + s
      decreases width - |r|
    {
      r := "0" + r;
    }
  }

  /** Zero-padding a digit string keeps the number it denotes. */
  lemma PaddedValue(s: string, width: int)
    requires IsDigits(s)
    ensures IsDigits(Padded(s, width)) && Value(Padded(s, width)) == Value(s)
  {
    if |s| < width {
      ValueLeadingZeros(Zeros(width - |s|), s);
    }
  }

  /** `Math.max(tracks.length.toString().length, 2)`: the width every prefix is padded to. */
  function PadWidth(count: nat): nat {
    if |Decimal(count)| > 2 then |Decimal(count)| else 2
  }

  /** The pad width is the least width of at least 2 into which every position 1..count fits. */
  lemma PadWidthIsLeast(count: nat)
    ensures PadWidth(count) >= 2
    ensures forall n :: 1 <= n <= count ==> |Decimal(n)| <= PadWidth(count)
    ensures PadWidth(count) > 2 ==> |Decimal(count)| == PadWidth(count)
  {
    forall n | 1 <= n <= count
      ensures |Decimal(n)| <= PadWidth(count)
    {
      DecimalLengthMonotone(n, count);
    }
  }

  /** `zpad(i + 1, trackPad)` for the track at 0-based index `i`. */
  function Prefix(i: nat, count: nat): string
    requires i < count
  {
    Padded(Decimal(i + 1), PadWidth(count))
  }

  /** Every prefix is exactly the pad width long and spells the 1-based position. */
  lemma PrefixShape(i: nat, count: nat)
    requires i < count
    ensures |Prefix(i, count)| == PadWidth(count)
    ensures IsDigits(Prefix(i, count)) && Value(Prefix(i, count)) == i + 1
  {
    DecimalLengthMonotone(i + 1, count);
    DecimalDigits(i + 1);
    PaddedValue(Decimal(i + 1), PadWidth(count));
  }

  /** Prefixes are pairwise distinct, and their string order is the playlist order. */
  lemma PrefixOrder(i: nat, j: nat, count: nat)
    requires i < count && j < count
    ensures Prefix(i, count) == Prefix(j, count) <==> i == j
    ensures LexLess(Prefix(i, count), Prefix(j, count)) <==> i < j
  {
    PrefixShape(i, count);
    PrefixShape(j, count);
    LexLessIffValueLess(Prefix(i, count), Prefix(j, count));
  }

  /** The part of `p` before any trailing `/` characters. */
  function TrimTrailingSlashes(p: string): string {
    if p != [] && p[|p| - 1] == '/' then TrimTrailingSlashes(p[..|p| - 1]) else p
  }

  /** The longest suffix of `p` without a `/`. */
  function LastSegment(p: string): string {
    if p == [] || p[|p| - 1] == '/' then [] else LastSegment(p[..|p| - 1]) + [p[|p| - 1]]
  }

  /** `path.basename` (POSIX): the last segment, ignoring trailing slashes. */
  function Basename(p: string): string {
    LastSegment(TrimTrailingSlashes(p))
  }

  /** Trimming keeps a prefix that does not end in `/`, and drops only `/` characters. */
  lemma {:induction false} TrimTrailingSlashesShape(p: string)
    ensures var q := TrimTrailingSlashes(p);
      && |q| <= |p| && q == p[..|q|]
      && (q == [] || q[|q| - 1] != '/')
      && (forall k :: |q| <= k < |p| ==> p[k] == '/')
  {
    if p != [] && p[|p| - 1] == '/' {
      TrimTrailingSlashesShape(p[..|p| - 1]);
    }
  }

  /** The last segment is a suffix without `/`, preceded by a `/` unless it is all of `p`. */
  lemma {:induction false} LastSegmentShape(p: string)
    ensures var b := LastSegment(p);
      && |b| <= |p| && b == p[|p| - |b|..]
      && (forall k :: 0 <= k < |b| ==> b[k] != '/')
      && (|b| < |p| ==> p[|p| - |b| - 1] == '/')
  {
    if !(p == [] || p[|p| - 1] == '/') {
      LastSegmentShape(p[..|p| - 1]);
    }
  }

  /**
   * The basename is the text after the last `/` once trailing slashes are
   * dropped: it holds no `/`, ends the trimmed path, and is preceded there by `/`
   * unless it is the whole trimmed path.
   */
  lemma BasenameShape(p: string)
    ensures var q, b := TrimTrailingSlashes(p), Basename(p);
      && (forall k :: 0 <= k < |b| ==> b[k] != '/')
      && |b| <= |q| && b == q[|q| - |b|..]
      && (|b| < |q| ==> q[|q| - |b| - 1] == '/')
      && (q == [] || q[|q| - 1] != '/')
      && |q| <= |p| && q == p[..|q|] && (forall k :: |q| <= k < |p| ==> p[k] == '/')
  {
    TrimTrailingSlashesShape(p);
    LastSegmentShape(TrimTrailingSlashes(p));
  }

  /** `path.join(dir, name)`, without `path.normalize`. */
  function Join(dir: string, name: string): string {
    dir + "/" + name
  }

  /** Joining names to one directory keeps different names apart. */
  lemma JoinInjective(dir: string, a: string, b: string)
    ensures Join(dir, a) == Join(dir, b) <==> a == b
  {
    if Join(dir, a) == Join(dir, b) {
      assert a == Join(dir, a)[|dir| + 1..];
      assert b == Join(dir, b)[|dir| + 1..];
    }
  }

  /** The last segment of a joined path is the name that was joined. */
  lemma {:induction false} LastSegmentOfJoin(dir: string, name: string)
    requires forall k :: 0 <= k < |name| ==> name[k] != '/'
    ensures LastSegment(Join(dir, name)) == name
  {
    if name != [] {
      var n := |name|;
      assert Join(dir, name)[..|Join(dir, name)| - 1] == Join(dir, name[..n - 1]);
      LastSegmentOfJoin(dir, name[..n - 1]);
      assert name == name[..n - 1] + [name[n - 1]];
    }
  }

  /** The basename of a joined path is the name that was joined. */
  lemma BasenameOfJoin(dir: string, name: string)
    requires name != [] && forall k :: 0 <= k < |name| ==> name[k] != '/'
    ensures Basename(Join(dir, name)) == name
  {
    assert TrimTrailingSlashes(Join(dir, name)) == Join(dir, name);
    LastSegmentOfJoin(dir, name);
  }

  /** The name a track gets: `${zpad(i + 1, trackPad)}. ` + path.basename(location). */
  function FileName(i: nat, count: nat, location: string): string
    requires i < count
  {
    Prefix(i, count) + ". " + Basename(location)
  }

  /**
   * Names of different positions differ, whatever their basenames, and sort in
   * position order.
   */
  lemma FileNameOrder(i: nat, j: nat, count: nat, a: string, b: string)
    requires i < count && j < count && i != j
    ensures FileName(i, count, a) != FileName(j, count, b)
    ensures LexLess(FileName(i, count, a), FileName(j, count, b)) <==> i < j
  {
    PrefixShape(i, count);
    PrefixShape(j, count);
    PrefixOrder(i, j, count);
    var p, q := Prefix(i, count), Prefix(j, count);
    assert FileName(i, count, a) == p + (". " + Basename(a));
    assert FileName(j, count, b) == q + (". " + Basename(b));
    LexLessAppend(p, ". " + Basename(a), q, ". " + Basename(b));
    assert (p + (". " + Basename(a)))[..|p|] == p;
    assert (q + (". " + Basename(b)))[..|q|] == q;
  }

  /** With fewer than ten tracks, the name of a file `dir/name` is `0<position>. name`. */
  lemma SmallPlaylistFileName(i: nat, count: nat, dir: string, name: string)
    requires i < count < 10
    requires name != [] && forall k :: 0 <= k < |name| ==> name[k] != '/'
    ensures FileName(i, count, Join(dir, name)) == ['0', DigitChar(i + 1), '.', ' '] + name
  {
    assert PadWidth(count) == 2;
    assert Zeros(1) == "0";
    assert Prefix(i, count) == ['0', DigitChar(i + 1)];
    BasenameOfJoin(dir, name);
  }

  /** A joined path determines its directory and its name. */
  lemma JoinSplits(dir1: string, name1: string, dir2: string, name2: string)
    requires forall k :: 0 <= k < |name1| ==> name1[k] != '/'
    requires forall k :: 0 <= k < |name2| ==> name2[k] != '/'
    ensures Join(dir1, name1) == Join(dir2, name2) ==> dir1 == dir2 && name1 == name2
  {
    LastSegmentOfJoin(dir1, name1);
    LastSegmentOfJoin(dir2, name2);
    if Join(dir1, name1) == Join(dir2, name2) {
      assert name1 == name2;
      assert dir1 == Join(dir1, name1)[..|dir1|];
      assert dir2 == Join(dir2, name2)[..|dir2|];
    }
  }

  /** With a hundred tracks the prefixes grow to three digits. */
  lemma WidePrefixExample()
    ensures Prefix(9, 100) == "010"
  {
    assert Decimal(100) == Decimal(10) + "0";
    assert |Decimal(100)| == 3;
    assert Decimal(10) == "10" by { assert Decimal(1) == "1"; }
    assert PadWidth(100) == 3;
    assert Zeros(1) == "0";
  }
}
