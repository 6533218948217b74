/** The two JSON files (news and gallery) as the handlers see them: a file is
    read wholesale into a list, changed, and written back wholesale. */
module JsonStore {

  /** What `load_data` can find at a path. */
  datatype FileState<T> = Absent | Malformed | Valid(records: seq<T>)

  /** `load_data`: a missing or unparsable file reads as the empty list; records
      only ever come from a well-formed file, and then they are all of its records. */
  function LoadData<T>(f: FileState<T>): (r: seq<T>)
    ensures !f.Valid? ==> r == []
    ensures r != [] ==> f.Valid? && r == f.records
  {
    match f
    case Absent => []
    case Malformed => []
    case Valid(records) => records
  }

  /** `save_data`: the file afterwards is well-formed and loads back as exactly
      the list written. */
  function SaveData<T>(records: seq<T>): (f: FileState<T>)
    ensures f.Valid? && LoadData(f) == records
  {
    Valid(records)
  }

  /** `r` keeps some of the elements of `s`, in their order. */
  predicate IsSubsequence<T(==)>(r: seq<T>, s: seq<T>)
    decreases |s|
  {
    if r == [] then true
    else if s == [] then false
    else (r[0] == s[0] && IsSubsequence(r[1..], s[1..])) || IsSubsequence(r, s[1..])
  }

  /** `[x for x in s if key(x) != k]`, the delete-by-id comprehension. */
  function Without<T, K(==)>(s: seq<T>, key: T -> K, k: K): (r: seq<T>)
    ensures forall i | 0 <= i < |r| :: key(r[i]) != k
    ensures |r| <= |s|
  {
    if s == [] then []
    else if key(s[0]) == k then Without(s[1..], key, k)
    else [s[0]] + Without(s[1..], key, k)
  }

  /** Deletion removes every occurrence of every matching record and keeps every
      other record as often as it occurred. */
  lemma {:induction false} WithoutCounts<T, K>(s: seq<T>, key: T -> K, k: K, x: T)
    ensures multiset(Without(s, key, k))[x] == if key(x) == k then 0 else multiset(s)[x]
  {
    if s != [] {
      WithoutCounts(s[1..], key, k, x);
      assert s == [s[0]] + s[1..];
    }
  }

  /** Deletion keeps the surviving records in their original relative order. */
  lemma {:induction false} WithoutIsSubsequence<T, K>(s: seq<T>, key: T -> K, k: K)
    ensures IsSubsequence(Without(s, key, k), s)
  {
    if s != [] {
      WithoutIsSubsequence(s[1..], key, k);
      var r := Without(s, key, k);
      if key(s[0]) != k {
        assert r[0] == s[0] && r[1..] == Without(s[1..], key, k);
      } else if r != [] {
        assert IsSubsequence(r, s[1..]);
      }
    }
  }

  /** Deleting the same id twice is the same as deleting it once. */
  lemma {:induction false} WithoutIdempotent<T, K>(s: seq<T>, key: T -> K, k: K)
    ensures Without(Without(s, key, k), key, k) == Without(s, key, k)
  {
    if s != [] {
      WithoutIdempotent(s[1..], key, k);
      var r := Without(s[1..], key, k);
      if key(s[0]) != k {
        assert ([s[0]] + r)[0] == s[0] && ([s[0]] + r)[1..] == r;
      }
    }
  }

  /** Deleting an id no record has leaves the list as it was. */
  lemma {:induction false} WithoutAbsent<T, K>(s: seq<T>, key: T -> K, k: K)
    requires forall i | 0 <= i < |s| :: key(s[i]) != k
    ensures Without(s, key, k) == s
  {
    if s != [] {
      WithoutAbsent(s[1..], key, k);
      assert s == [s[0]] + s[1..];
    }
  }
}
