/** Go's `<` on strings (byte-wise lexicographic order; on characters, code
    point order, which UTF-8 preserves) and the sorting done by sort.Strings
    and sort.Slice with a string key. */
module Order {

  /** a < b on Go strings. */
  predicate Less(a: string, b: string)
  {
    if a == [] then b != []
    else if b == [] then false
    else if a[0] != b[0] then a[0] < b[0]
    else Less(a[1..], b[1..])
  }

  predicate LessEq(a: string, b: string)
  {
    a == b || Less(a, b)
  }

  lemma {:induction false} LessIrreflexive(a: string)
    ensures !Less(a, a)
  {
    if a != [] {
      LessIrreflexive(a[1..]);
    }
  }

  lemma {:induction false} LessTransitive(a: string, b: string, c: string)
    requires Less(a, b) && Less(b, c)
    ensures Less(a, c)
  {
    if a != [] && b != [] && c != [] && a[0] == b[0] == c[0] {
      LessTransitive(a[1..], b[1..], c[1..]);
    }
  }

  /** Any two different strings are ordered one way or the other. */
  lemma {:induction false} LessTotal(a: string, b: string)
    ensures a == b || Less(a, b) || Less(b, a)
  {
    if a != [] && b != [] && a[0] == b[0] {
      LessTotal(a[1..], b[1..]);
      if a[1..] == b[1..] {
        assert a == [a[0]] + a[1..] && b == [b[0]] + b[1..];
      }
    }
  }

  lemma LessEqTransitive(a: string, b: string, c: string)
    requires LessEq(a, b) && LessEq(b, c)
    ensures LessEq(a, c)
  {
    if a != b && b != c {
      LessTransitive(a, b, c);
    }
  }

  /** The keys of `s` never decrease from left to right. */
  ghost predicate SortedBy<T>(s: seq<T>, key: T -> string)
  {
    forall i, j :: 0 <= i < j < |s| ==> LessEq(key(s[i]), key(s[j]))
  }

  /** Places `x` before the first element whose key is not smaller than its own. */
  function Insert<T>(x: T, s: seq<T>, key: T -> string): (r: seq<T>)
    requires SortedBy(s, key)
    ensures multiset(r) == multiset(s) + multiset{x}
    ensures SortedBy(r, key)
  {
    if s == [] then [x]
    else if LessEq(key(x), key(s[0])) then
      InsertHere(x, s, key);
      [x] + s
    else
      var rest := Insert(x, s[1..], key);
      InsertLater(x, s, rest, key);
      [s[0]] + rest
  }

  /** Putting `x` in front keeps the order when its key is not above the first. */
  lemma InsertHere<T>(x: T, s: seq<T>, key: T -> string)
    requires SortedBy(s, key) && s != [] && LessEq(key(x), key(s[0]))
    ensures multiset([x] + s) == multiset(s) + multiset{x}
    ensures SortedBy([x] + s, key)
  {
    forall i, j | 0 <= i < j < |s| + 1
      ensures LessEq(key(([x] + s)[i]), key(([x] + s)[j]))
    {
      if i == 0 {
        LessEqTransitive(key(x), key(s[0]), key(s[j - 1]));
      }
    }
  }

  /** Keeping the first element in front of the rest with `x` inserted. */
  lemma InsertLater<T>(x: T, s: seq<T>, rest: seq<T>, key: T -> string)
    requires SortedBy(s, key) && s != [] && !LessEq(key(x), key(s[0]))
    requires multiset(rest) == multiset(s[1..]) + multiset{x} && SortedBy(rest, key)
    ensures multiset([s[0]] + rest) == multiset(s) + multiset{x}
    ensures SortedBy([s[0]] + rest, key)
  {
    assert s == [s[0]] + s[1..];
    assert LessEq(key(s[0]), key(x)) by { LessTotal(key(x), key(s[0])); }
    forall y | y in multiset(rest)
      ensures LessEq(key(s[0]), key(y))
    {
      if y != x {
        assert y in multiset(s[1..]);
        var j :| 0 <= j < |s[1..]| && s[1..][j] == y;
        assert s[j + 1] == y;
      }
    }
    forall i, j | 0 <= i < j < |rest| + 1
      ensures LessEq(key(([s[0]] + rest)[i]), key(([s[0]] + rest)[j]))
    {
      if i == 0 {
        assert rest[j - 1] in multiset(rest);
      }
    }
  }

  /** sort.Slice(s, key(s[i]) < key(s[j])) as a stable insertion sort. */
  function SortBy<T>(s: seq<T>, key: T -> string): (r: seq<T>)
    ensures multiset(r) == multiset(s)
    ensures SortedBy(r, key)
  {
    if s == [] then []
    else
      assert s == [s[0]] + s[1..];
      Insert(s[0], SortBy(s[1..], key), key)
  }

  /** sort.Strings */
  function SortStrings(s: seq<string>): (r: seq<string>)
    ensures multiset(r) == multiset(s)
    ensures forall i, j :: 0 <= i < j < |r| ==> LessEq(r[i], r[j])
  {
    var r := SortBy(s, x => x);
    assert forall i, j :: 0 <= i < j < |r| ==> LessEq((x => x)(r[i]), (x => x)(r[j]));
    r
  }
}
