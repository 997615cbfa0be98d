/** Byte-wise order of strings, and sorting by it. A Go string is a Dafny string with one character per byte. */
module Text {

  predicate Less(s: string, t: string) {
    t != [] && (s == [] || s[0] < t[0] || (s[0] == t[0] && Less(s[1..], t[1..])))
  }

  predicate AtMost(s: string, t: string) {
    s == t || Less(s, t)
  }

  lemma {:induction false} LessIsTotal(s: string, t: string)
    ensures Less(s, t) || Less(t, s) || s == t
    ensures !(Less(s, t) && Less(t, s)) && !Less(s, s)
  {
    if s != [] && t != [] {
      LessIsTotal(s[1..], t[1..]);
      assert s == [s[0]] + s[1..] && t == [t[0]] + t[1..];
    }
    if s != [] {
      LessIsTotal(s[1..], s[1..]);
    }
  }

  lemma {:induction false} LessIsTransitive(s: string, t: string, u: string)
    requires Less(s, t) && Less(t, u)
    ensures Less(s, u)
  {
    if s != [] && s[0] == t[0] == u[0] {
      LessIsTransitive(s[1..], t[1..], u[1..]);
    }
  }

  /** Strings of one length compare by all but their last characters first. */
  lemma {:induction false} LessAtLast(s: string, c: char, t: string, d: char)
    requires |s| == |t|
    ensures Less(s + [c], t + [d]) <==> Less(s, t) || (s == t && c < d)
  {
    if s == [] {
      assert (s + [c])[1..] == [] && (t + [d])[1..] == [];
    } else {
      LessAtLast(s[1..], c, t[1..], d);
      assert (s + [c])[1..] == s[1..] + [c] && (t + [d])[1..] == t[1..] + [d];
      assert s == [s[0]] + s[1..] && t == [t[0]] + t[1..];
    }
  }

  /** Keys that rise strictly from one to the next. */
  predicate Rising(keys: seq<string>) {
    forall i :: 0 < i < |keys| ==> Less(keys[i - 1], keys[i])
  }

  lemma {:induction false} RisingEverywhere(keys: seq<string>, i: nat, j: nat)
    requires Rising(keys) && i < j < |keys|
    ensures Less(keys[i], keys[j])
    decreases j
  {
    if i < j - 1 {
      RisingEverywhere(keys, i, j - 1);
      LessIsTransitive(keys[i], keys[j - 1], keys[j]);
    }
  }

  /** Of the keys of two rising lists, the first ones are equal: each is in the other list. */
  lemma FirstOfRising(a: seq<string>, b: seq<string>)
    requires Rising(a) && Rising(b) && a != [] && b != []
    requires forall k :: k in a <==> k in b
    ensures a[0] == b[0]
  {
    assert a[0] in b && b[0] in a;
    var i :| 0 <= i < |b| && b[i] == a[0];
    var j :| 0 <= j < |a| && a[j] == b[0];
    if i > 0 && j > 0 {
      RisingEverywhere(b, 0, i);
      RisingEverywhere(a, 0, j);
      LessIsTotal(a[0], b[0]);
    }
  }

  lemma TailKeys(a: seq<string>, k: string)
    requires Rising(a) && a != []
    ensures k in a[1..] <==> k in a && k != a[0]
    ensures Rising(a[1..])
  {
    forall i | 0 < i < |a[1..]|
      ensures Less(a[1..][i - 1], a[1..][i])
    {
      assert a[1..][i - 1] == a[i] && a[1..][i] == a[i + 1];
      assert Less(a[(i + 1) - 1], a[i + 1]);
    }
    if k in a[1..] {
      var i :| 0 <= i < |a[1..]| && a[1..][i] == k;
      RisingEverywhere(a, 0, i + 1);
      LessIsTotal(a[0], k);
    }
    if k in a && k != a[0] {
      var i :| 0 <= i < |a| && a[i] == k;
      assert a[1..][i - 1] == k;
    }
  }

  lemma FirstIsMember(keys: seq<string>)
    requires keys != []
    ensures keys[0] in keys
  {
  }

  /** A set of keys has one rising list. */
  lemma {:induction false} RisingIsUnique(a: seq<string>, b: seq<string>)
    requires Rising(a) && Rising(b)
    requires forall k :: k in a <==> k in b
    ensures a == b
    decreases |a|
  {
    if a == [] {
      if b != [] {
        FirstIsMember(b);
      }
    } else {
      assert a[0] in b;
      FirstOfRising(a, b);
      forall k
        ensures k in a[1..] <==> k in b[1..]
      {
        TailKeys(a, k);
        TailKeys(b, k);
      }
      TailKeys(a, a[0]);
      TailKeys(b, b[0]);
      RisingIsUnique(a[1..], b[1..]);
      assert a == [a[0]] + a[1..] && b == [b[0]] + b[1..];
    }
  }

  lemma CountOne<T>(items: seq<T>, i: nat)
    requires i < |items| && forall j :: 0 <= j < |items| && j != i ==> items[j] != items[i]
    ensures multiset(items)[items[i]] == 1
  {
    var before, behind := items[..i], items[i + 1..];
    assert items == before + [items[i]] + behind;
    forall j | 0 <= j < |before|
      ensures before[j] != items[i]
    {
      assert before[j] == items[j];
    }
    forall j | 0 <= j < |behind|
      ensures behind[j] != items[i]
    {
      assert behind[j] == items[i + 1 + j];
    }
    assert multiset(before)[items[i]] == 0 && multiset(behind)[items[i]] == 0;
  }

  // Sorting by a key

  function Keys<T>(key: T -> string, items: seq<T>): (r: seq<string>)
    ensures |r| == |items|
    ensures forall i :: 0 <= i < |r| ==> r[i] == key(items[i])
  {
    if items == [] then [] else [key(items[0])] + Keys(key, items[1..])
  }

  function Insert<T>(key: T -> string, x: T, items: seq<T>): seq<T> {
    if items == [] || AtMost(key(x), key(items[0])) then [x] + items
    else [items[0]] + Insert(key, x, items[1..])
  }

  /** Stands for the library's sort: with distinct keys every correct sort gives this list. */
  function SortBy<T>(key: T -> string, items: seq<T>): seq<T> {
    if items == [] then [] else Insert(key, items[0], SortBy(key, items[1..]))
  }

  predicate OrderedBy<T>(key: T -> string, items: seq<T>) {
    |items| < 2 || (AtMost(key(items[0]), key(items[1])) && OrderedBy(key, items[1..]))
  }

  lemma {:induction false} OrderedNeighbours<T>(key: T -> string, items: seq<T>, i: nat)
    requires OrderedBy(key, items) && 0 < i < |items|
    ensures AtMost(key(items[i - 1]), key(items[i]))
  {
    if i > 1 {
      OrderedNeighbours(key, items[1..], i - 1);
    }
  }

  lemma {:induction false} InsertSorts<T>(key: T -> string, x: T, items: seq<T>)
    requires OrderedBy(key, items)
    ensures OrderedBy(key, Insert(key, x, items))
    ensures multiset(Insert(key, x, items)) == multiset(items) + multiset{x}
  {
    hide AtMost;
    var r := Insert(key, x, items);
    if items == [] || AtMost(key(x), key(items[0])) {
      assert r[1..] == items;
    } else {
      InsertSorts(key, x, items[1..]);
      var others := Insert(key, x, items[1..]);
      AtMostIsTotal(key(x), key(items[0]));
      assert r[1..] == others;
      assert items == [items[0]] + items[1..];
    }
  }

  lemma AtMostIsTotal(s: string, t: string)
    ensures AtMost(s, t) || AtMost(t, s)
  {
    LessIsTotal(s, t);
  }

  lemma {:induction false} SortBySorts<T>(key: T -> string, items: seq<T>)
    ensures OrderedBy(key, SortBy(key, items))
    ensures multiset(SortBy(key, items)) == multiset(items)
  {
    if items != [] {
      SortBySorts(key, items[1..]);
      InsertSorts(key, items[0], SortBy(key, items[1..]));
      assert items == [items[0]] + items[1..];
    }
  }
}
