/** Shared datatypes, and the one search function that every splitter and parser of this project uses. */
module Common {

  datatype Option<+T> = None | Some(value: T)

  datatype Result<+T, +E> = Success(value: T) | Failure(error: E)

  type Byte = x: int | 0 <= x < 256

  type Bytes = seq<Byte>

  /** `d` stands in `s` at position `i`. */
  predicate OccursAt<T(==)>(s: seq<T>, d: seq<T>, i: int) {
    0 <= i <= |s| - |d| && s[i..i + |d|] == d
  }

  /** The first position of `d` in `s` at or after `from`. */
  function Find<T(==)>(s: seq<T>, d: seq<T>, from: nat := 0): (r: Option<nat>)
    requires from <= |s|
    ensures r.Some? ==> from <= r.value && OccursAt(s, d, r.value)
    ensures forall j :: from <= j && (r.Some? ==> j < r.value) ==> !OccursAt(s, d, j)
    decreases |s| - from
  {
    if from + |d| > |s| then None
    else if s[from..from + |d|] == d then Some(from)
    else if from == |s| then None
    else Find(s, d, from + 1)
  }

  /** A non-empty delimiter whose first symbol does not come back in it cannot overlap itself. */
  predicate NonOverlapping<T(==)>(d: seq<T>) {
    |d| > 0 && forall k :: 1 <= k < |d| ==> d[k] != d[0]
  }

  /** A non-overlapping delimiter placed after `c` starts no earlier match than the ones inside `c`. */
  lemma OccurrenceBeforeDelimiter<T>(c: seq<T>, d: seq<T>, rest: seq<T>, j: nat)
    requires NonOverlapping(d)
    requires j < |c|
    ensures OccursAt(c + d + rest, d, j) <==> OccursAt(c, d, j)
  {
    var s := c + d + rest;
    if j + |d| <= |c| {
      assert s[j..j + |d|] == c[j..j + |d|];
    } else if j + |d| <= |s| {
      assert s[j..j + |d|][|c| - j] == d[0];
    }
  }

  /** The first match in `c + d + rest` is the first match in `c` when there is one, and the placed
      delimiter itself when there is none. */
  lemma FindFirstDelimiter<T>(c: seq<T>, d: seq<T>, rest: seq<T>)
    requires NonOverlapping(d)
    ensures Find(c + d + rest, d) == if Find(c, d).Some? then Find(c, d) else Some(|c|)
  {
    var s := c + d + rest;
    forall j: nat | j < |c| ensures OccursAt(s, d, j) <==> OccursAt(c, d, j) {
      OccurrenceBeforeDelimiter(c, d, rest, j);
    }
    assert OccursAt(s, d, |c|);
    var f := Find(c, d);
    var g := Find(s, d);
    assert g.Some? && g.value <= |c|;
    if f.Some? {
      assert OccursAt(s, d, f.value);
    }
  }

  lemma OccursInSlice<T>(s: seq<T>, d: seq<T>, lo: nat, hi: nat, i: nat)
    requires lo <= hi <= |s| && OccursAt(s[lo..hi], d, i)
    ensures OccursAt(s, d, lo + i)
  {
    SliceOfSlice(s, lo, hi, i, i + |d|);
  }

  /** Before the first match there is none in any slice. */
  lemma NotFoundInSlice<T>(s: seq<T>, d: seq<T>, lo: nat, hi: nat)
    requires |d| > 0
    requires lo <= hi <= |s|
    requires Find(s, d).Some? ==> hi <= Find(s, d).value
    ensures Find(s[lo..hi], d).None?
  {
    var r := Find(s[lo..hi], d);
    if r.Some? {
      OccursInSlice(s, d, lo, hi, r.value);
    }
  }

  lemma NotFoundIffAbsent<T>(s: seq<T>, b: T)
    ensures Find(s, [b]).None? <==> b !in s
  {
    forall i | 0 <= i < |s| ensures OccursAt(s, [b], i) <==> s[i] == b {
      assert s[i..i + 1] == [s[i]];
    }
  }

  lemma SliceOfSlice<T>(s: seq<T>, lo: nat, hi: nat, i: nat, j: nat)
    requires lo <= hi <= |s| && i <= j <= hi - lo
    ensures s[lo..hi][i..j] == s[lo + i..lo + j]
  {
    var t := s[lo..hi];
    forall k | 0 <= k < j - i ensures t[i..j][k] == s[lo + i..lo + j][k] {
      assert t[i..j][k] == t[i + k] == s[lo + (i + k)];
    }
  }

  lemma PrefixGrows<T>(s: seq<T>, done: nat, n: nat)
    requires done + n <= |s|
    ensures s[..done] + s[done..][..n] == s[..done + n]
  {
    assert s[done..][..n] == s[done..done + n];
  }

  lemma SuffixShrinks<T>(s: seq<T>, done: nat, n: nat)
    requires done + n <= |s|
    ensures s[done..][n..] == s[done + n..]
  {
  }

  lemma Assoc<T>(a: seq<T>, b: seq<T>, c: seq<T>)
    ensures a + b + c == a + (b + c)
  {
  }

  lemma SliceOfSuffix<T>(a: seq<T>, b: seq<T>, lo: nat, hi: nat)
    requires |a| <= lo <= hi <= |a| + |b|
    ensures (a + b)[lo..hi] == b[lo - |a|..hi - |a|]
  {
  }
}
