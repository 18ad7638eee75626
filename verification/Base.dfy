/** Shared vocabulary: optional values, results, the order of identifier strings,
    a stable sort and keyed indexes over lists. */
module Base {
  datatype Option<+T> = None | Some(value: T)

  datatype Result<+T, +E> = Ok(value: T) | Err(error: E)

  /** What became of one call to the server: done, failed without effect, or reported as failed although it landed. */
  datatype Fate = Done | FailedBefore | FailedAfter
  {
    predicate Lands() { !FailedBefore? }
  }

  // ---------- identifier order ----------

  /** Rust compares strings byte by byte; on UTF-8 text that is code point order. */
  predicate Leq(a: string, b: string)
  {
    a == [] || (b != [] && (a[0] < b[0] || (a[0] == b[0] && Leq(a[1..], b[1..]))))
  }

  lemma LeqTotal(a: string, b: string)
    ensures Leq(a, b) || Leq(b, a)
  {}

  lemma {:induction false} LeqAntisymmetric(a: string, b: string)
    requires Leq(a, b) && Leq(b, a)
    ensures a == b
  {
    if a == [] || b == [] {
    } else {
      LeqAntisymmetric(a[1..], b[1..]);
      assert a == [a[0]] + a[1..] && b == [b[0]] + b[1..];
    }
  }

  lemma {:induction false} LeqTransitive(a: string, b: string, c: string)
    requires Leq(a, b) && Leq(b, c)
    ensures Leq(a, c)
  {
    if a == [] || a[0] != b[0] || b[0] != c[0] {
    } else {
      LeqTransitive(a[1..], b[1..], c[1..]);
    }
  }

  /** The strings differ first at `k`, where `a` has the smaller character. */
  ghost predicate SmallerAt(a: string, b: string, k: nat)
  {
    k < |a| && k < |b| && a[..k] == b[..k] && a[k] < b[k]
  }

  lemma {:induction false} PrefixIsLeq(a: string, b: string)
    requires a <= b
    ensures Leq(a, b)
  {
    if a == [] {
    } else {
      PrefixIsLeq(a[1..], b[1..]);
    }
  }

  lemma {:induction false} SmallerIsLeq(a: string, b: string, k: nat)
    requires SmallerAt(a, b, k)
    ensures Leq(a, b)
  {
    if k == 0 {
    } else {
      assert a[0] == a[..k][0] == b[..k][0] == b[0];
      assert a[1..][..k - 1] == a[..k][1..] && b[1..][..k - 1] == b[..k][1..];
      SmallerIsLeq(a[1..], b[1..], k - 1);
    }
  }

  lemma {:induction false} LeqIsSmaller(a: string, b: string) returns (k: nat)
    requires Leq(a, b) && !(a <= b)
    ensures SmallerAt(a, b, k)
  {
    if a[0] < b[0] {
      k := 0;
    } else {
      assert a == [a[0]] + a[1..] && b == [b[0]] + b[1..];
      k := LeqIsSmaller(a[1..], b[1..]);
      assert a[..k + 1] == [a[0]] + a[1..][..k] && b[..k + 1] == [b[0]] + b[1..][..k];
      k := k + 1;
    }
  }

  /** Identifier order: a prefix comes first, otherwise the first character that differs decides. */
  lemma LeqMeans(a: string, b: string)
    ensures Leq(a, b) <==> a <= b || exists k :: SmallerAt(a, b, k)
  {
    if a <= b { PrefixIsLeq(a, b); }
    if k :| SmallerAt(a, b, k) { SmallerIsLeq(a, b, k); }
    if Leq(a, b) && !(a <= b) { var k := LeqIsSmaller(a, b); }
  }

  // ---------- stable sort ----------

  ghost predicate TotalPreorder<T(!new)>(leq: (T, T) -> bool)
  {
    && (forall a, b :: leq(a, b) || leq(b, a))
    && (forall a, b, c :: leq(a, b) && leq(b, c) ==> leq(a, c))
  }

  ghost predicate SortedBy<T>(s: seq<T>, leq: (T, T) -> bool)
  {
    forall i, j :: 0 <= i < j < |s| ==> leq(s[i], s[j])
  }

  function Insert<T>(x: T, s: seq<T>, leq: (T, T) -> bool): (r: seq<T>)
    ensures multiset(r) == multiset{x} + multiset(s)
  {
    if s == [] || leq(x, s[0]) then [x] + s
    else
      assert s == [s[0]] + s[1..];
      [s[0]] + Insert(x, s[1..], leq)
  }

  /** The stable `sort_by` of the standard library: equal elements keep their order. */
  function SortBy<T(!new)>(s: seq<T>, leq: (T, T) -> bool): (r: seq<T>)
    ensures multiset(r) == multiset(s)
    ensures |r| == |s|
    ensures forall x :: x in r <==> x in s
  {
    if s == [] then [] else
      assert s == [s[0]] + s[1..];
      var r := Insert(s[0], SortBy(s[1..], leq), leq);
      assert multiset(r) == multiset(s);
      assert |multiset(r)| == |r| && |multiset(s)| == |s|;
      assert forall x :: x in r <==> x in multiset(r);
      assert forall x :: x in s <==> x in multiset(s);
      r
  }

  lemma {:induction false} InsertSorted<T(!new)>(x: T, s: seq<T>, leq: (T, T) -> bool)
    requires TotalPreorder(leq) && SortedBy(s, leq)
    ensures SortedBy(Insert(x, s, leq), leq)
  {
    if s == [] || leq(x, s[0]) {
    } else {
      InsertSorted(x, s[1..], leq);
      var t := Insert(x, s[1..], leq);
      forall y | y in t ensures leq(s[0], y) {
        assert y in multiset(t);
        assert y == x || y in s[1..];
      }
    }
  }

  lemma {:induction false} SortBySorted<T(!new)>(s: seq<T>, leq: (T, T) -> bool)
    requires TotalPreorder(leq)
    ensures SortedBy(SortBy(s, leq), leq)
  {
    if s == [] {
    } else {
      SortBySorted(s[1..], leq);
      InsertSorted(s[0], SortBy(s[1..], leq), leq);
    }
  }

  function Filter<T>(s: seq<T>, p: T -> bool): seq<T>
  {
    if s == [] then [] else if p(s[0]) then [s[0]] + Filter(s[1..], p) else Filter(s[1..], p)
  }

  lemma {:induction false} FilterElements<T(!new)>(s: seq<T>, p: T -> bool)
    ensures forall x :: x in Filter(s, p) <==> x in s && p(x)
  {
    if s == [] {
    } else {
      FilterElements(s[1..], p);
    }
  }

  /** Stability: any class of mutually equivalent elements keeps its order through the sort. */
  lemma {:induction false} SortByStable<T(!new)>(s: seq<T>, leq: (T, T) -> bool, p: T -> bool)
    requires TotalPreorder(leq)
    requires forall x, y :: p(x) && p(y) ==> leq(x, y)
    ensures Filter(SortBy(s, leq), p) == Filter(s, p)
  {
    if s == [] {
    } else {
      SortByStable(s[1..], leq, p);
      InsertStable(s[0], SortBy(s[1..], leq), leq, p);
    }
  }

  lemma FilterCons<T>(x: T, s: seq<T>, p: T -> bool)
    ensures Filter([x] + s, p) == if p(x) then [x] + Filter(s, p) else Filter(s, p)
  {
    assert ([x] + s)[1..] == s;
  }

  lemma {:induction false} InsertStable<T(!new)>(x: T, s: seq<T>, leq: (T, T) -> bool, p: T -> bool)
    requires forall x, y :: p(x) && p(y) ==> leq(x, y)
    ensures Filter(Insert(x, s, leq), p) == if p(x) then [x] + Filter(s, p) else Filter(s, p)
  {
    if s == [] || leq(x, s[0]) {
      FilterCons(x, s, p);
    } else {
      InsertStable(x, s[1..], leq, p);
      FilterCons(s[0], Insert(x, s[1..], leq), p);
      assert !(p(x) && p(s[0]));
    }
  }

  // ---------- lists compared as multisets ----------

  ghost predicate Permuted<T>(s: seq<T>, t: seq<T>)
  {
    multiset(s) == multiset(t)
  }

  lemma PermutedSameElements<T>(s: seq<T>, t: seq<T>)
    requires Permuted(s, t)
    ensures forall x :: x in s <==> x in t
    ensures |s| == |t|
  {
    assert forall x :: x in s <==> x in multiset(s);
    assert forall x :: x in t <==> x in multiset(t);
    assert |s| == |multiset(s)| && |t| == |multiset(t)|;
  }

  // ---------- keyed indexes ----------

  ghost predicate UniqueBy<T>(s: seq<T>, key: T -> string)
  {
    forall i, j :: 0 <= i < j < |s| ==> key(s[i]) != key(s[j])
  }

  /** Inserting the elements of a list one after the other; a later element replaces an earlier one. */
  ghost function ById<T>(s: seq<T>, key: T -> string): (m: map<string, T>)
    ensures forall k :: k in m ==> m[k] in s && key(m[k]) == k
    ensures forall x :: x in s ==> key(x) in m
  {
    if s == [] then map[] else
      var init := s[..|s| - 1];
      assert forall x :: x in s ==> x in init || x == s[|s| - 1];
      ById(init, key)[key(s[|s| - 1]) := s[|s| - 1]]
  }

  lemma ByIdLookup<T>(s: seq<T>, key: T -> string, x: T)
    requires UniqueBy(s, key) && x in s
    ensures key(x) in ById(s, key) && ById(s, key)[key(x)] == x
  {
    var y := ById(s, key)[key(x)];
    var i :| 0 <= i < |s| && s[i] == x;
    var j :| 0 <= j < |s| && s[j] == y;
  }

  lemma ByIdPermuted<T>(s: seq<T>, t: seq<T>, key: T -> string)
    requires UniqueBy(s, key) && UniqueBy(t, key) && Permuted(s, t)
    ensures ById(s, key) == ById(t, key)
  {
    PermutedSameElements(s, t);
    var m, n := ById(s, key), ById(t, key);
    forall k | k in m ensures k in n && n[k] == m[k] { ByIdLookup(t, key, m[k]); }
    forall k | k in n ensures k in m { assert n[k] in s; }
  }

  lemma ByIdMembership<T(!new)>(s: seq<T>, key: T -> string, id: string)
    requires UniqueBy(s, key)
    ensures id in ById(s, key) <==> exists x | x in s :: key(x) == id
    ensures forall x :: x in s && key(x) == id ==> id in ById(s, key) && ById(s, key)[id] == x
  {
    forall x | x in s && key(x) == id ensures id in ById(s, key) && ById(s, key)[id] == x { ByIdLookup(s, key, x); }
  }

  lemma ByIdAppend<T>(s: seq<T>, x: T, key: T -> string)
    ensures ById(s + [x], key) == ById(s, key)[key(x) := x]
    ensures UniqueBy(s + [x], key) <==> UniqueBy(s, key) && key(x) !in ById(s, key)
  {
    assert (s + [x])[..|s|] == s;
    UniqueAppend(s, x, key);
    if key(x) in ById(s, key) { assert ById(s, key)[key(x)] in s; }
  }

  lemma UniqueAppend<T>(s: seq<T>, x: T, key: T -> string)
    ensures UniqueBy(s + [x], key) <==> UniqueBy(s, key) && forall y :: y in s ==> key(y) != key(x)
  {
    var t := s + [x];
    if UniqueBy(t, key) {
      forall y | y in s ensures key(y) != key(x) {
        var i :| 0 <= i < |s| && s[i] == y;
        assert key(t[i]) != key(t[|s|]);
      }
      forall i, j | 0 <= i < j < |s| ensures key(s[i]) != key(s[j]) { assert key(t[i]) != key(t[j]); }
    }
  }

  lemma {:induction false} TwiceMeansTwoPlaces<T>(s: seq<T>, x: T) returns (i: nat, j: nat)
    requires multiset(s)[x] >= 2
    ensures i < j < |s| && s[i] == x && s[j] == x
  {
    assert s == [s[0]] + s[1..];
    if s[0] == x {
      assert x in multiset(s[1..]);
      var k :| 0 <= k < |s[1..]| && s[1..][k] == x;
      i, j := 0, k + 1;
    } else {
      i, j := TwiceMeansTwoPlaces(s[1..], x);
      i, j := i + 1, j + 1;
    }
  }

  lemma UniquePermuted<T(!new)>(s: seq<T>, t: seq<T>, key: T -> string)
    requires UniqueBy(s, key) && Permuted(s, t)
    ensures UniqueBy(t, key)
  {
    PermutedSameElements(s, t);
    forall i, j | 0 <= i < j < |t| ensures key(t[i]) != key(t[j]) {
      if t[i] == t[j] {
        var tail := t[i + 1..];
        assert t == t[..i] + [t[i]] + tail;
        assert tail[j - i - 1] == t[j];
        assert multiset(tail)[t[i]] >= 1;
        assert multiset(t)[t[i]] >= 2;
        var a, b := TwiceMeansTwoPlaces(s, t[i]);
      } else {
        var a :| 0 <= a < |s| && s[a] == t[i];
        var b :| 0 <= b < |s| && s[b] == t[j];
        assert key(s[a]) != key(s[b]);
      }
    }
  }

  // ---------- ordered maps ----------

  lemma OneFewer<T>(s: set<T>, x: T)
    requires x in s
    ensures |s - {x}| == |s| - 1
  {}

  ghost function LeastKey(keys: set<string>): (k: string)
    requires keys != {}
    ensures k in keys && forall other :: other in keys ==> Leq(k, other)
  {
    var k :| k in keys;
    LeqTotal(k, k);
    if keys == {k} then k
    else
      var least := LeastKey(keys - {k});
      LeqTotal(k, least);
      assert forall other | other in keys && other != k && Leq(k, least) :: Leq(k, other) by {
        forall other | other in keys && other != k && Leq(k, least) ensures Leq(k, other) {
          LeqTransitive(k, least, other);
        }
      }
      if Leq(k, least) then k else least
  }

  ghost function Matching<V>(m: map<string, V>, p: V -> bool): set<string>
  {
    set k | k in m && p(m[k])
  }

  /** What `values().find(..)` of an ordered map finds: the match with the least key. */
  ghost function FirstKey<V>(m: map<string, V>, p: V -> bool): (r: Option<string>)
    ensures r.Some? ==> r.value in m && p(m[r.value])
    ensures r.None? ==> forall k :: k in m ==> !p(m[k])
  {
    if Matching(m, p) == {} then
      assert forall k :: k in m && p(m[k]) ==> k in Matching(m, p);
      None
    else Some(LeastKey(Matching(m, p)))
  }

  method FindFirst<V>(m: map<string, V>, p: V -> bool) returns (r: Option<string>)
    ensures r == FirstKey(m, p)
  {
    r := None;
    var todo := m.Keys;
    while todo != {}
      invariant todo <= m.Keys
      invariant r.None? ==> forall k :: k in m && k !in todo ==> !p(m[k])
      invariant r.Some? ==> r.value in m && p(m[r.value])
      invariant r.Some? ==> forall k :: k in m && k !in todo && p(m[k]) ==> Leq(r.value, k)
      decreases |todo|
    {
      var k :| k in todo;
      LeqTotal(k, k);
      if p(m[k]) && (r.None? || Leq(k, r.value)) {
        forall other | r.Some? && Leq(k, r.value) && Leq(r.value, other) ensures Leq(k, other) {
          LeqTransitive(k, r.value, other);
        }
        r := Some(k);
      } else if r.Some? {
        LeqTotal(k, r.value);
      }
      todo := todo - {k};
    }
    if r.Some? {
      assert r.value in Matching(m, p);
      LeqAntisymmetric(r.value, LeastKey(Matching(m, p)));
    }
  }
}
