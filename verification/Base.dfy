/** Result types, characters and bytes, keyed sorting, counting and multiset facts shared by the models. */
module Base {
  datatype Option<+T> = None | Some(value: T)

  datatype Result<+T, +E> = Ok(value: T) | Err(error: E)

  type byte = x: int | 0 <= x < 256

  /** White space and line terminators of JavaScript, which String.prototype.trim and \s share. */
  predicate IsJsSpace(c: char) {
    || '\t' <= c <= '\r' || c == ' ' || c == '\U{A0}' || c == '\U{1680}' || '\U{2000}' <= c <= '\U{200A}'
    || c in {'\U{2028}', '\U{2029}', '\U{202F}', '\U{205F}', '\U{3000}', '\U{FEFF}'}
  }

  /** No two members of s share a key, so an ORDER BY on the key has one answer. */
  ghost predicate KeyedBy<T>(s: set<T>, key: T -> int) {
    forall x, y :: x in s && y in s && key(x) == key(y) ==> x == y
  }

  predicate Ascending<T>(r: seq<T>, key: T -> int) {
    forall i, j :: 0 <= i < j < |r| ==> key(r[i]) < key(r[j])
  }

  lemma {:induction false} LeastExists<T>(s: set<T>, key: T -> int)
    requires s != {}
    ensures exists m :: m in s && forall x :: x in s ==> key(m) <= key(x)
    decreases |s|
  {
    var a :| a in s;
    if exists b :: b in s && key(b) < key(a) {
      var rest := s - {a};
      LeastExists(rest, key);
      var m :| m in rest && forall x :: x in rest ==> key(m) <= key(x);
      assert forall x :: x in s ==> key(m) <= key(x);
    }
  }

  function Least<T(==,!new)>(s: set<T>, key: T -> int): (m: T)
    requires s != {} && KeyedBy(s, key)
    ensures m in s && forall x :: x in s ==> key(m) <= key(x)
  {
    LeastExists(s, key);
    var m :| m in s && forall x :: x in s ==> key(m) <= key(x);
    m
  }

  /** The members of s in ascending key order. */
  function SortedBy<T(==,!new)>(s: set<T>, key: T -> int): (r: seq<T>)
    requires KeyedBy(s, key)
    decreases |s|
  {
    if s == {} then []
    else
      var m := Least(s, key);
      assert KeyedBy(s - {m}, key);
      [m] + SortedBy(s - {m}, key)
  }

  lemma {:induction false} SortedByMembers<T(!new)>(s: set<T>, key: T -> int)
    requires KeyedBy(s, key)
    ensures |SortedBy(s, key)| == |s|
    ensures forall x :: x in SortedBy(s, key) <==> x in s
    decreases |s|
  {
    if s != {} {
      var m := Least(s, key);
      SortedByMembers(s - {m}, key);
    }
  }

  lemma {:induction false} SortedByAscends<T(!new)>(s: set<T>, key: T -> int)
    requires KeyedBy(s, key)
    ensures Ascending(SortedBy(s, key), key)
    decreases |s|
  {
    if s != {} {
      var m := Least(s, key);
      var rest := SortedBy(s - {m}, key);
      SortedByAscends(s - {m}, key);
      SortedByMembers(s - {m}, key);
      forall j | 0 <= j < |rest| ensures key(m) < key(rest[j]) {
        assert rest[j] in rest;
        assert rest[j] in s - {m};
      }
    }
  }

  /** An injective image has as many members as its domain. */
  lemma {:induction false} ImageSize<A, B>(s: set<A>, f: A -> B, image: set<B>)
    requires forall x, y :: x in s && y in s && f(x) == f(y) ==> x == y
    requires image == set x | x in s :: f(x)
    ensures |image| == |s|
    decreases |s|
  {
    if s != {} {
      var a :| a in s;
      var rest := s - {a};
      var smaller := set x | x in rest :: f(x);
      assert image == smaller + {f(a)};
      assert f(a) !in smaller;
      ImageSize(rest, f, smaller);
    }
  }

  lemma {:induction false} SubsetSize<T>(a: set<T>, b: set<T>)
    requires a <= b
    ensures |a| <= |b|
    decreases |a|
  {
    if a != {} {
      var x :| x in a;
      SubsetSize(a - {x}, b - {x});
    }
  }

  lemma SubsetSmaller<T>(a: set<T>, b: set<T>, x: T)
    requires a <= b && x in b && x !in a
    ensures |a| < |b|
  {
    assert a <= b - {x};
    SubsetSize(a, b - {x});
  }

  /** Sequence bookkeeping, kept apart from whatever the elements mean. */
  lemma PrefixNext<T>(s: seq<T>, i: nat)
    requires i < |s|
    ensures s[..i + 1] == s[..i] + [s[i]] && s == s[..i + 1] + s[i + 1..] && s[..i + 1][..i] == s[..i]
  {
  }

  // ---- multisets seen through a function -------------------------------------------------------

  /** The members of m, each as f shows it, with multiplicity. */
  ghost function Image<T>(f: T -> T, m: multiset<T>): multiset<T>
    decreases |m|
  {
    if m == multiset{} then multiset{}
    else
      var p :| p in m;
      Image(f, m - multiset{p}) + multiset{f(p)}
  }

  lemma {:induction false} ImageSplit<T>(f: T -> T, m: multiset<T>, p: T)
    requires p in m
    ensures Image(f, m) == Image(f, m - multiset{p}) + multiset{f(p)}
    decreases |m|
  {
    var q :| q in m && Image(f, m) == Image(f, m - multiset{q}) + multiset{f(q)};
    if q != p {
      var rest := m - multiset{q} - multiset{p};
      ImageSplit(f, m - multiset{q}, p);
      ImageSplit(f, m - multiset{p}, q);
      TakeTwo(m, p, q);
      Swap(Image(f, rest), multiset{f(p)}, multiset{f(q)});
    }
  }

  lemma TakeTwo<T>(m: multiset<T>, p: T, q: T)
    ensures m - multiset{p} - multiset{q} == m - multiset{q} - multiset{p}
  {
  }

  lemma Swap<T>(a: multiset<T>, b: multiset<T>, c: multiset<T>)
    ensures (a + b) + c == (a + c) + b && (a + b) + c == a + (b + c)
  {
  }

  lemma ImageAdd<T>(f: T -> T, m: multiset<T>, p: T)
    ensures Image(f, m + multiset{p}) == Image(f, m) + multiset{f(p)}
  {
    ImageSplit(f, m + multiset{p}, p);
    assert m + multiset{p} - multiset{p} == m;
  }

  lemma ImageOne<T>(f: T -> T, p: T)
    ensures Image(f, multiset{p}) == multiset{f(p)}
  {
    ImageSplit(f, multiset{p}, p);
    assert multiset{p} - multiset{p} == multiset{};
  }

  lemma {:induction false} ImageUnion<T>(f: T -> T, a: multiset<T>, b: multiset<T>)
    ensures Image(f, a + b) == Image(f, a) + Image(f, b)
    decreases |b|
  {
    if b == multiset{} {
      assert a + b == a;
    } else {
      var p :| p in b;
      var rest := b - multiset{p};
      assert b == rest + multiset{p} && a + b == (a + rest) + multiset{p};
      ImageUnion(f, a, rest);
      ImageAdd(f, a + rest, p);
      ImageAdd(f, rest, p);
      Swap(Image(f, a), Image(f, rest), multiset{f(p)});
    }
  }

  lemma {:induction false} ImageThen<T>(f: T -> T, g: T -> T, m: multiset<T>)
    requires forall p :: g(f(p)) == g(p)
    ensures Image(g, Image(f, m)) == Image(g, m)
    decreases |m|
  {
    if m != multiset{} {
      var p :| p in m;
      var rest := m - multiset{p};
      ImageThen(f, g, rest);
      ImageSplit(f, m, p);
      ImageSplit(g, m, p);
      ImageAdd(g, Image(f, rest), f(p));
    }
  }

  /** Only what f shows is in the image. */
  lemma {:induction false} ImageMembers<T>(f: T -> T, m: multiset<T>, q: T)
    ensures q in Image(f, m) <==> exists p :: p in m && f(p) == q
    decreases |m|
  {
    if m != multiset{} {
      var p :| p in m;
      ImageSplit(f, m, p);
      ImageMembers(f, m - multiset{p}, q);
    }
  }

  lemma {:induction false} ImageSame<T>(f: T -> T, m: multiset<T>)
    requires forall p :: p in m ==> f(p) == p
    ensures Image(f, m) == m
    decreases |m|
  {
    if m != multiset{} {
      var p :| p in m;
      ImageSplit(f, m, p);
      ImageSame(f, m - multiset{p});
    }
  }

  lemma {:induction false} ImageCount<T>(f: T -> T, m: multiset<T>)
    ensures |Image(f, m)| == |m|
    decreases |m|
  {
    if m != multiset{} {
      var p :| p in m;
      ImageSplit(f, m, p);
      ImageCount(f, m - multiset{p});
    }
  }
}
