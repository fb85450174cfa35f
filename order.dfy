/** Python's ordering of strings (code point by code point, a prefix first) and of paths (their
    parts compared as lists), which `sorted(path.rglob("*"))` uses. */
module Order {
  import opened Host

  predicate StrLe(a: string, b: string)
    decreases |a|
  {
    |a| == 0 || (|b| > 0 && (a[0] < b[0] || (a[0] == b[0] && StrLe(a[1..], b[1..]))))
  }

  predicate StrLt(a: string, b: string) {
    StrLe(a, b) && a != b
  }

  lemma {:induction false} StrLeTotal(a: string, b: string)
    ensures StrLe(a, b) || StrLe(b, a)
    decreases |a|
  {
    if |a| > 0 && |b| > 0 && a[0] == b[0] {
      StrLeTotal(a[1..], b[1..]);
    }
  }

  lemma {:induction false} StrLeAntisym(a: string, b: string)
    requires StrLe(a, b) && StrLe(b, a)
    ensures a == b
    decreases |a|
  {
    if |a| > 0 {
      StrLeAntisym(a[1..], b[1..]);
      assert a == [a[0]] + a[1..] && b == [b[0]] + b[1..];
    }
  }

  lemma {:induction false} StrLeTrans(a: string, b: string, c: string)
    requires StrLe(a, b) && StrLe(b, c)
    ensures StrLe(a, c)
    decreases |a|
  {
    if |a| > 0 && a[0] == b[0] && b[0] == c[0] {
      StrLeTrans(a[1..], b[1..], c[1..]);
    }
  }

  /** Paths compare part by part, a path before the paths below it. */
  predicate PathLe(a: Path, b: Path)
    decreases |a|
  {
    |a| == 0 || (|b| > 0 && (StrLt(a[0], b[0]) || (a[0] == b[0] && PathLe(a[1..], b[1..]))))
  }

  predicate PathLt(a: Path, b: Path) {
    PathLe(a, b) && a != b
  }

  lemma {:induction false} PathLeTotal(a: Path, b: Path)
    ensures PathLe(a, b) || PathLe(b, a)
    decreases |a|
  {
    if |a| > 0 && |b| > 0 {
      if a[0] == b[0] {
        PathLeTotal(a[1..], b[1..]);
      } else {
        StrLeTotal(a[0], b[0]);
      }
    }
  }

  lemma {:induction false} PathLeAntisym(a: Path, b: Path)
    requires PathLe(a, b) && PathLe(b, a)
    ensures a == b
    decreases |a|
  {
    if |a| > 0 {
      if a[0] != b[0] {
        StrLeAntisym(a[0], b[0]);
      }
      PathLeAntisym(a[1..], b[1..]);
      assert a == [a[0]] + a[1..] && b == [b[0]] + b[1..];
    }
  }

  lemma {:induction false} PathLeTrans(a: Path, b: Path, c: Path)
    requires PathLe(a, b) && PathLe(b, c)
    ensures PathLe(a, c)
    decreases |a|
  {
    if |a| > 0 {
      if a[0] == b[0] && b[0] == c[0] {
        PathLeTrans(a[1..], b[1..], c[1..]);
      } else if a[0] != b[0] && b[0] != c[0] {
        StrLeTrans(a[0], b[0], c[0]);
        if a[0] == c[0] {
          StrLeAntisym(a[0], b[0]);
        }
      }
    }
  }

  /** A finite set of paths has a least element. */
  lemma MinExists(s: set<Path>)
    requires s != {}
    ensures exists m :: m in s && forall y :: y in s ==> PathLe(m, y)
    decreases |s|
  {
    var x :| x in s;
    if s - {x} == {} {
      assert s == {x};
      assert PathLe(x, x) by { PathLeTotal(x, x); }
    } else {
      MinExists(s - {x});
      var m :| m in s - {x} && forall y :: y in s - {x} ==> PathLe(m, y);
      PathLeTotal(m, x);
      if PathLe(m, x) {
        assert forall y :: y in s ==> PathLe(m, y);
      } else {
        forall y | y in s ensures PathLe(x, y) {
          if y != x {
            PathLeTrans(x, m, y);
          } else {
            PathLeTotal(x, x);
          }
        }
      }
    }
  }

  /** Strictly increasing: what `sorted` yields for distinct paths. */
  predicate SortedPaths(s: seq<Path>) {
    forall i, j :: 0 <= i < j < |s| ==> PathLt(s[i], s[j])
  }

  lemma {:induction false} SortedExists(ps: set<Path>)
    ensures exists r :: SortedPaths(r) && forall p :: p in r <==> p in ps
    decreases |ps|
  {
    if ps == {} {
      assert SortedPaths([]) && forall p :: p in [] <==> p in ps;
    } else {
      MinExists(ps);
      var m :| m in ps && forall y :: y in ps ==> PathLe(m, y);
      SortedExists(ps - {m});
      var t :| SortedPaths(t) && forall p :: p in t <==> p in ps - {m};
      var r := [m] + t;
      forall i, j | 0 <= i < j < |r| ensures PathLt(r[i], r[j]) {
        if i > 0 {
          assert r[i] == t[i - 1] && r[j] == t[j - 1];
        } else {
          assert r[j] == t[j - 1] && r[j] in t;
        }
      }
      forall p ensures p in r <==> p in ps {
        if p != m {
          assert p in r <==> p in t;
        }
      }
      assert SortedPaths(r) && forall p :: p in r <==> p in ps;
    }
  }

  /** The strictly increasing list of the paths in `ps`. */
  ghost function SortedOf(ps: set<Path>): (r: seq<Path>)
    ensures SortedPaths(r) && forall p :: p in r <==> p in ps
  {
    SortedExists(ps);
    var r :| SortedPaths(r) && forall p :: p in r <==> p in ps;
    r
  }

  /** A strictly increasing list holds each of its paths once. */
  lemma {:induction false} SortedCard(s: seq<Path>)
    requires SortedPaths(s)
    ensures |set p | p in s| == |s|
    decreases |s|
  {
    if |s| > 0 {
      SortedCard(s[1..]);
      assert (set p | p in s) == {s[0]} + (set p | p in s[1..]);
      forall i | 0 <= i < |s| - 1 ensures s[1..][i] != s[0] {
        assert PathLt(s[0], s[i + 1]);
      }
    }
  }

  /** Two strictly increasing lists of the same paths are the same list. */
  lemma {:induction false} SortedUnique(a: seq<Path>, b: seq<Path>)
    requires SortedPaths(a) && SortedPaths(b)
    requires forall p :: p in a <==> p in b
    ensures a == b
    decreases |a|
  {
    assert |a| > 0 ==> a[0] in b;
    assert |b| > 0 ==> b[0] in a;
    if |a| > 0 {
      SortedHeads(a, b);
      forall p ensures p in a[1..] <==> p in b[1..] {
        if p in a[1..] {
          SortedTailMember(a, b, p);
        }
        if p in b[1..] {
          SortedTailMember(b, a, p);
        }
      }
      SortedUnique(a[1..], b[1..]);
      assert a == [a[0]] + a[1..] && b == [b[0]] + b[1..];
    }
  }

  /** Two strictly increasing lists of the same paths start with the same path. */
  lemma SortedHeads(a: seq<Path>, b: seq<Path>)
    requires SortedPaths(a) && SortedPaths(b)
    requires forall p :: p in a <==> p in b
    requires |a| > 0 && |b| > 0
    ensures a[0] == b[0]
  {
    assert a[0] in b;
    assert b[0] in a;
    var i :| 0 <= i < |a| && a[i] == b[0];
    var j :| 0 <= j < |b| && b[j] == a[0];
    if a[0] != b[0] {
      assert PathLt(a[0], a[i]) && PathLt(b[0], b[j]);
      PathLeAntisym(a[0], b[0]);
    }
  }

  /** With equal heads, a path after the head of one list is after the head of the other. */
  lemma SortedTailMember(a: seq<Path>, b: seq<Path>, p: Path)
    requires SortedPaths(a) && SortedPaths(b)
    requires forall q :: q in a <==> q in b
    requires |a| > 0 && |b| > 0 && a[0] == b[0]
    requires p in a[1..]
    ensures p in b[1..]
  {
    var k :| 0 <= k < |a| - 1 && a[1..][k] == p;
    assert PathLt(a[0], a[k + 1]);
    assert p in b;
    var l :| 0 <= l < |b| && b[l] == p;
    assert l != 0;
    assert b[1..][l - 1] == p;
  }

  /** `sorted(ps)` for a set of paths, built by taking the least remaining path each time. */
  method SortPaths(ps: set<Path>) returns (r: seq<Path>)
    ensures r == SortedOf(ps)
    ensures |r| == |ps|
  {
    var rest := ps;
    r := [];
    while rest != {}
      invariant rest !! (set p | p in r)
      invariant forall p :: p in ps <==> p in r || p in rest
      invariant SortedPaths(r)
      invariant forall i, y :: 0 <= i < |r| && y in rest ==> PathLt(r[i], y)
      invariant |r| + |rest| == |ps|
      decreases |rest|
    {
      MinExists(rest);
      var m :| m in rest && forall y :: y in rest ==> PathLe(m, y);
      forall i, y | 0 <= i < |r| + 1 && y in rest - {m} ensures PathLt((r + [m])[i], y) {
        if i == |r| {
          if m == y { assert false; }
        }
      }
      r := r + [m];
      rest := rest - {m};
    }
    SortedUnique(r, SortedOf(ps));
  }
}
