/** Strings as the source's ordered collections see them: the order of Rust's `String`
    (code points, shorter prefix first), and ordered sets kept as the strictly ascending
    sequence that iterating them yields. */
module Text {
  datatype Option<+T> = None | Some(value: T) {
    function GetOr(default: T): T {
      if Some? then value else default
    }
  }

  function Repeat<T>(x: T, n: nat): (r: seq<T>)
    ensures |r| == n && forall i | 0 <= i < n :: r[i] == x
  {
    if n == 0 then [] else [x] + Repeat(x, n - 1)
  }

  predicate Le(a: string, b: string) {
    a == [] || (b != [] && (a[0] < b[0] || (a[0] == b[0] && Le(a[1..], b[1..]))))
  }

  predicate Lt(a: string, b: string) {
    a != b && Le(a, b)
  }

  lemma {:induction false} LeTotal(a: string, b: string)
    ensures Le(a, b) || Le(b, a)
    ensures Le(a, b) && Le(b, a) ==> a == b
  {
    if a != [] && b != [] && a[0] == b[0] {
      LeTotal(a[1..], b[1..]);
      assert a == [a[0]] + a[1..] && b == [b[0]] + b[1..];
    }
  }

  lemma {:induction false} LeTransitive(a: string, b: string, c: string)
    requires Le(a, b) && Le(b, c)
    ensures Le(a, c)
  {
    if a != [] && a[0] == b[0] == c[0] {
      LeTransitive(a[1..], b[1..], c[1..]);
    }
  }

  lemma LtTransitive(a: string, b: string, c: string)
    requires Lt(a, b) && Lt(b, c)
    ensures Lt(a, c)
  {
    LeTransitive(a, b, c);
    LeTotal(a, b);
  }

  /** An ordered set, as the sequence its iterator yields. */
  predicate Ascending(s: seq<string>) {
    forall i, j | 0 <= i < j < |s| :: Lt(s[i], s[j])
  }

  function Insert(s: seq<string>, x: string): (r: seq<string>)
    requires Ascending(s)
    ensures Ascending(r)
    ensures forall y :: y in r <==> y == x || y in s
  {
    if s == [] then [x]
    else if x == s[0] then s
    else if Le(x, s[0]) then
      assert forall j | 0 < j < |s| :: Lt(x, s[j]) by {
        forall j | 0 < j < |s| ensures Lt(x, s[j]) { LtTransitive(x, s[0], s[j]); }
      }
      [x] + s
    else
      assert Lt(s[0], x) by { LeTotal(s[0], x); }
      assert forall y :: y in s <==> y == s[0] || y in s[1..];
      var rest := Insert(s[1..], x);
      assert forall j | 0 <= j < |rest| :: Lt(s[0], rest[j]) by {
        assert forall j | 0 <= j < |rest| :: rest[j] in rest;
      }
      [s[0]] + rest
  }

  /** Collecting a list into an ordered set. */
  function Collect(v: seq<string>): (r: seq<string>)
    ensures Ascending(r)
    ensures forall y :: y in r <==> y in v
  {
    if v == [] then [] else
      assert forall y :: y in v <==> y in v[..|v| - 1] || y == v[|v| - 1];
      Insert(Collect(v[..|v| - 1]), v[|v| - 1])
  }

  /** An ordered map: its keys in iteration order, and the entries. */
  datatype SortedMap<V> = SortedMap(keys: seq<string>, at: map<string, V>) {
    ghost predicate Valid() {
      Ascending(keys) && forall k :: k in keys <==> k in at
    }

    function Put(k: string, v: V): (m: SortedMap<V>)
      requires Valid()
      ensures m.Valid() && m.at == at[k := v]
    {
      SortedMap(Insert(keys, k), at[k := v])
    }

    function Remove(k: string): (m: SortedMap<V>)
      requires Valid()
      ensures m.Valid() && m.at == at - {k}
    {
      SortedMap(Without(keys, k), at - {k})
    }
  }

  function Without(s: seq<string>, x: string): (r: seq<string>)
    requires Ascending(s)
    ensures Ascending(r)
    ensures forall y :: y in r <==> y in s && y != x
  {
    if s == [] then []
    else
      var rest := Without(s[1..], x);
      assert forall y :: y in s <==> y == s[0] || y in s[1..];
      if s[0] == x then rest
      else
        assert forall j | 0 <= j < |rest| :: Lt(s[0], rest[j]) by {
          assert forall j | 0 <= j < |rest| :: rest[j] in rest;
        }
        [s[0]] + rest
  }

  /** An ordered set is determined by its members. */
  lemma {:induction false} AscendingUnique(s: seq<string>, t: seq<string>)
    requires Ascending(s) && Ascending(t)
    requires forall y :: y in s <==> y in t
    ensures s == t
  {
    assert s != [] ==> s[0] in t;
    assert t != [] ==> t[0] in s;
    if s != [] {
      assert s[0] == t[0] by {
        if s[0] != t[0] {
          var i :| 0 <= i < |t| && t[i] == s[0];
          var j :| 0 <= j < |s| && s[j] == t[0];
          LeTotal(s[0], t[0]);
        }
      }
      forall y ensures y in s[1..] <==> y in t[1..] {
        assert s == [s[0]] + s[1..] && t == [t[0]] + t[1..];
        if y in s[1..] { assert y in s && y != s[0]; }
        if y in t[1..] { assert y in t && y != t[0]; }
      }
      AscendingUnique(s[1..], t[1..]);
      assert s == [s[0]] + s[1..] && t == [t[0]] + t[1..];
    }
  }
}
