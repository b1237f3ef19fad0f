/** Package `dotypes`: search and delete in a Go slice. A slice is its backing array `a`
    and a length `n`; the elements are `a[..n]`. */
module DoTypes {

  /** The index of the first element satisfying `equal`, or -1 when there is none. */
  function FirstMatch<T>(s: seq<T>, equal: T -> bool): (k: int)
    ensures -1 <= k < |s|
    ensures k >= 0 ==> equal(s[k]) && forall j :: 0 <= j < k ==> !equal(s[j])
    ensures k == -1 <==> forall j :: 0 <= j < |s| ==> !equal(s[j])
  {
    if s == [] then -1
    else if equal(s[0]) then 0
    else
      var k := FirstMatch(s[1..], equal);
      assert forall j :: 1 <= j < |s| ==> s[j] == s[1..][j - 1];
      if k == -1 then -1 else k + 1
  }

  /** `s` without its element at `i`, the others in order. */
  function Without<T>(s: seq<T>, i: nat): (r: seq<T>)
    requires i < |s|
    ensures |r| == |s| - 1
    ensures forall j :: 0 <= j < i ==> r[j] == s[j]
    ensures forall j :: i < j < |s| ==> r[j - 1] == s[j]
    ensures multiset(r) + multiset{s[i]} == multiset(s)
  {
    assert s == s[..i] + [s[i]] + s[i + 1..];
    s[..i] + s[i + 1..]
  }

  /** `FindIndex`: scans the slice from the front. */
  method FindIndex<T>(a: array<T>, n: nat, equal: T -> bool) returns (k: int)
    requires n <= a.Length
    ensures k == FirstMatch(a[..n], equal)
  {
    var i := 0;
    while i < n
      invariant 0 <= i <= n
      invariant forall j :: 0 <= j < i ==> !equal(a[j])
    {
      if equal(a[i]) {
        assert a[..n][i] == a[i];
        return i;
      }
      i := i + 1;
    }
    return -1;
  }

  /** `DelItem`: removes the first element satisfying `equal` by shifting the rest of the
      slice down one place in the caller's backing array (`append(data[:i], data[i+1:]...)`),
      and returns the shorter length and true; without a match, the slice as it was and
      false. The caller's own slice keeps its length, so it now ends with its last element
      twice. */
  method DelItem<T>(a: array<T>, n: nat, equal: T -> bool) returns (m: nat, found: bool)
    requires n <= a.Length
    modifies a
    ensures var i := FirstMatch(old(a[..n]), equal);
      && (found <==> i >= 0)
      && (!found ==> m == n && a[..] == old(a[..]))
      && (found ==> m == n - 1 && a[..] == Without(old(a[..n]), i) + old(a[n - 1..]))
  {
    var index := FindIndex(a, n, equal);
    if index == -1 {
      return n, false;
    }
    ghost var before := a[..];
    var j := index;
    while j < n - 1
      invariant index <= j <= n - 1
      invariant forall k :: 0 <= k < index ==> a[k] == before[k]
      invariant forall k :: index <= k < j ==> a[k] == before[k + 1]
      invariant forall k :: j <= k < a.Length ==> a[k] == before[k]
    {
      a[j] := a[j + 1];
      j := j + 1;
    }
    ShiftedDown(before, a[..], n, index);
    return n - 1, true;
  }

  /** The array after the shift, read as a sequence. */
  lemma ShiftedDown<T>(before: seq<T>, after: seq<T>, n: nat, i: nat)
    requires i < n <= |before| == |after|
    requires forall k :: 0 <= k < i ==> after[k] == before[k]
    requires forall k :: i <= k < n - 1 ==> after[k] == before[k + 1]
    requires forall k :: n - 1 <= k < |after| ==> after[k] == before[k]
    ensures after == Without(before[..n], i) + before[n - 1..]
  {
    var w := Without(before[..n], i);
    assert forall k :: 0 <= k < n - 1 ==> after[k] == w[k];
  }

  /** Removing 2 from [1, 2, 3] leaves [1, 3]. */
  lemma DelItemExample()
    ensures var s := [1, 2, 3]; var eq := (x: int) => x == 2;
      FirstMatch(s, eq) == 1 && Without(s, 1) == [1, 3]
  {
    var s := [1, 2, 3];
    var eq := (x: int) => x == 2;
    assert !eq(s[0]) && eq(s[1]);
  }
}
