/** The order of sort.Strings, and keys listed in it. */
module Strings {

  /** Strictly before in lexicographic order. */
  predicate Before(a: string, b: string) {
    b != [] && (a == [] || a[0] < b[0] || (a[0] == b[0] && Before(a[1..], b[1..])))
  }

  lemma {:induction false} Comparable(a: string, b: string)
    ensures Before(a, b) || a == b || Before(b, a)
    ensures !(Before(a, b) && Before(b, a)) && !Before(a, a)
  {
    if a == [] {
    } else {
      Comparable(a[1..], a[1..]);
      if b != [] {
        Comparable(a[1..], b[1..]);
        assert a == [a[0]] + a[1..] && b == [b[0]] + b[1..];
      }
    }
  }

  /** One text comes before another exactly when it is a proper start of it, or has the smaller character
      where they first differ. */
  lemma {:induction false} BeforeExactly(a: string, b: string)
    ensures Before(a, b) <==> exists i :: FirstDifference(a, b, i) && (i == |a| || (i < |b| && a[i] < b[i]))
  {
    if a == [] || b == [] || a[0] != b[0] {
      assert FirstDifference(a, b, 0) <==> a != b;
    } else {
      BeforeExactly(a[1..], b[1..]);
      if Before(a[1..], b[1..]) {
        var i :| FirstDifference(a[1..], b[1..], i) && (i == |a[1..]| || (i < |b[1..]| && a[1..][i] < b[1..][i]));
        assert a[..i + 1] == [a[0]] + a[1..][..i] && b[..i + 1] == [b[0]] + b[1..][..i];
        assert FirstDifference(a, b, i + 1);
      }
      forall i | FirstDifference(a, b, i) && (i == |a| || (i < |b| && a[i] < b[i])) ensures Before(a, b) {
        assert a[1..][..i - 1] == a[..i][1..] && b[1..][..i - 1] == b[..i][1..];
        assert FirstDifference(a[1..], b[1..], i - 1);
      }
    }
  }

  /** The texts agree on their first `i` characters and not on the next, which one may not have. */
  predicate FirstDifference(a: string, b: string, i: int) {
    && 0 <= i <= |a| && i <= |b| && a[..i] == b[..i]
    && !(i == |a| && i == |b|) && (i < |a| && i < |b| ==> a[i] != b[i])
  }

  lemma {:induction false} Transitive(a: string, b: string, c: string)
    requires Before(a, b) && Before(b, c)
    ensures Before(a, c)
  {
    if a != [] && a[0] == b[0] == c[0] {
      Transitive(a[1..], b[1..], c[1..]);
    }
  }

  ghost predicate Ascending(s: seq<string>) {
    forall i, j :: 0 <= i < j < |s| ==> Before(s[i], s[j])
  }

  /** An element of an ascending list is not among those before it. */
  lemma NotBefore(s: seq<string>, n: nat)
    requires Ascending(s) && n < |s|
    ensures s[n] !in s[..n]
  {
    Comparable(s[n], s[n]);
  }

  ghost predicate Least(keys: set<string>, k: string) {
    k in keys && forall j :: j in keys && j != k ==> Before(k, j)
  }

  lemma {:induction false} LeastExists(keys: set<string>)
    requires keys != {}
    ensures exists k :: Least(keys, k)
  {
    var some :| some in keys;
    if keys == {some} {
      assert Least(keys, some);
    } else {
      LeastExists(keys - {some});
      var least :| Least(keys - {some}, least);
      Comparable(some, least);
      if Before(some, least) {
        forall j | j in keys && j != some ensures Before(some, j) {
          if j != least {
            Transitive(some, least, j);
          }
        }
        assert Least(keys, some);
      } else {
        assert Least(keys, least);
      }
    }
  }

  /** The keys of a map, sorted. */
  method SortedKeys(keys: set<string>) returns (out: seq<string>)
    ensures Ascending(out) && |out| == |keys|
    ensures forall k :: k in out <==> k in keys
  {
    out := [];
    var rest := keys;
    while rest != {}
      invariant rest <= keys && |out| + |rest| == |keys|
      invariant Ascending(out)
      invariant forall k :: k in out <==> k in keys && k !in rest
      invariant forall i, k :: 0 <= i < |out| && k in rest ==> Before(out[i], k)
    {
      LeastExists(rest);
      var k :| k in rest && forall j :: j in rest && j != k ==> Before(k, j);
      out := out + [k];
      rest := rest - {k};
    }
  }

  /** There is only one way to list a set of keys in order. */
  lemma {:induction false} SortedUnique(s: seq<string>, t: seq<string>)
    requires Ascending(s) && Ascending(t) && forall k :: k in s <==> k in t
    ensures s == t
  {
    HasMember(t);
    if s != [] {
      assert s[0] in s;
      var i :| 0 <= i < |t| && t[i] == s[0];
      assert t[0] in t;
      var j :| 0 <= j < |s| && s[j] == t[0];
      Comparable(s[0], t[0]);
      assert s[0] == t[0];
      forall k ensures k in s[1..] <==> k in t[1..] {
        Comparable(s[0], s[0]);
        TailMembers(s, k);
        TailMembers(t, k);
      }
      SortedUnique(s[1..], t[1..]);
      assert s == [s[0]] + s[1..] && t == [t[0]] + t[1..];
    }
  }

  lemma HasMember(t: seq<string>)
    ensures t != [] ==> exists k :: k in t
  {
    if t != [] {
      assert t[0] in t;
    }
  }

  lemma TailMembers(s: seq<string>, k: string)
    requires Ascending(s) && s != []
    ensures k in s[1..] <==> k in s && k != s[0]
  {
    Comparable(s[0], s[0]);
    if k in s && k != s[0] {
      var i :| 0 <= i < |s| && s[i] == k;
      assert s[1..][i - 1] == k;
    }
    if k in s[1..] {
      var i :| 0 <= i < |s[1..]| && s[1..][i] == k;
      assert Before(s[0], s[i + 1]);
    }
  }
}
