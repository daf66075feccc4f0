/** Shared value types: optional values and the JSON values that the
    pipeline passes between its stages and writes to the metrics directory. */
module Base {

  /** Python's `Optional[T]`: `None` or a present value. */
  datatype Option<+T> = None | Some(value: T)

  /** A computation that returns a value or raises; `error` describes the
      exception. */
  datatype Result<+T, +E> = Success(value: T) | Failure(error: E)

  /** A parsed JSON document, as `json.loads` returns it. Integers and
      floats are kept apart because Python keeps them apart. */
  datatype Json =
    | JNull
    | JBool(b: bool)
    | JInt(i: int)
    | JReal(r: real)
    | JStr(s: string)
    | JArr(items: seq<Json>)
    | JObj(fields: map<string, Json>)
  {
    /** Python truthiness of the decoded value (`if value:`). */
    predicate Truthy()
    {
      match this
      case JNull => false
      case JBool(b) => b
      case JInt(i) => i != 0
      case JReal(r) => r != 0.0
      case JStr(s) => |s| > 0
      case JArr(items) => |items| > 0
      case JObj(fields) => |fields| > 0
    }
  }

  /** Code-point order on strings, Python's `a <= b` on `str`. */
  predicate StrLe(a: string, b: string)
  {
    a == [] || (b != [] && (a[0] < b[0] || (a[0] == b[0] && StrLe(a[1..], b[1..]))))
  }

  lemma {:induction false} StrLeTotal(a: string, b: string)
    ensures StrLe(a, b) || StrLe(b, a)
  {
    if a != [] && b != [] && a[0] == b[0] {
      StrLeTotal(a[1..], b[1..]);
    }
  }

  lemma {:induction false} StrLeAntisymmetric(a: string, b: string)
    requires StrLe(a, b) && StrLe(b, a)
    ensures a == b
  {
    if a != [] && b != [] {
      StrLeAntisymmetric(a[1..], b[1..]);
      assert a == [a[0]] + a[1..] && b == [b[0]] + b[1..];
    }
  }

  lemma {:induction false} StrLeTransitive(a: string, b: string, c: string)
    requires StrLe(a, b) && StrLe(b, c)
    ensures StrLe(a, c)
  {
    if a != [] && b != [] && c != [] && a[0] == b[0] && b[0] == c[0] {
      StrLeTransitive(a[1..], b[1..], c[1..]);
    }
  }

  /** No two strings are each at most the other unless they are equal. */
  lemma StrLeAntisymmetricAll()
    ensures forall a, b :: StrLe(a, b) && StrLe(b, a) ==> a == b
  {
    forall a, b | StrLe(a, b) && StrLe(b, a)
      ensures a == b
    {
      StrLeAntisymmetric(a, b);
    }
  }

  /** `k` is the least string of `ks`. */
  predicate IsLeast(k: string, ks: set<string>)
  {
    k in ks && forall j :: j in ks ==> StrLe(k, j)
  }

  /** A string at most the least of the others is the least of all. */
  lemma LeastOfInsert(x: string, m: string, ks: set<string>)
    requires x in ks && IsLeast(m, ks - {x}) && StrLe(x, m)
    ensures IsLeast(x, ks)
  {
    forall j | j in ks
      ensures StrLe(x, j)
    {
      if j == x {
        StrLeTotal(x, x);
      } else {
        StrLeTransitive(x, m, j);
      }
    }
  }

  /** A finite, non-empty set of strings has a least element. */
  lemma {:induction false} LeastExists(ks: set<string>)
    requires ks != {}
    ensures exists k :: IsLeast(k, ks)
    decreases |ks|
  {
    var x :| x in ks;
    if ks == {x} {
      StrLeTotal(x, x);
      assert IsLeast(x, ks);
    } else {
      LeastExists(ks - {x});
      var m :| IsLeast(m, ks - {x});
      StrLeTotal(x, m);
      if StrLe(x, m) {
        LeastOfInsert(x, m, ks);
      } else {
        assert IsLeast(m, ks);
      }
    }
  }

  /** The keys of an object in code-point order, each once. */
  function SortedKeys(ks: set<string>): (r: seq<string>)
    ensures |r| == |ks|
    ensures forall k :: k in r <==> k in ks
    ensures forall i, j :: 0 <= i < j < |r| ==> StrLe(r[i], r[j])
    decreases |ks|
  {
    if ks == {} then []
    else
      LeastExists(ks);
      StrLeAntisymmetricAll();
      var k :| IsLeast(k, ks);
      [k] + SortedKeys(ks - {k})
  }

  /** A list comprehension with an optional filter: each item contributes
      `f(item)`, usually zero or one element, in order. */
  function Comprehend<A, B>(xs: seq<A>, f: A -> seq<B>): seq<B>
  {
    if xs == [] then [] else f(xs[0]) + Comprehend(xs[1..], f)
  }

  lemma {:induction false} ComprehendAppend<A, B>(a: seq<A>, b: seq<A>, f: A -> seq<B>)
    ensures Comprehend(a + b, f) == Comprehend(a, f) + Comprehend(b, f)
  {
    if a == [] {
      assert a + b == b;
    } else {
      assert (a + b)[0] == a[0];
      assert (a + b)[1..] == a[1..] + b;
      ComprehendAppend(a[1..], b, f);
    }
  }

  /** Everything a comprehension yields comes from one of its items. */
  lemma {:induction false} ComprehendFrom<A, B>(xs: seq<A>, f: A -> seq<B>)
    ensures forall k :: 0 <= k < |Comprehend(xs, f)| ==>
              exists i :: 0 <= i < |xs| && Comprehend(xs, f)[k] in f(xs[i])
  {
    if xs != [] {
      ComprehendFrom(xs[1..], f);
      var h := f(xs[0]);
      var t := Comprehend(xs[1..], f);
      assert Comprehend(xs, f) == h + t;
      forall k | 0 <= k < |h + t|
        ensures exists i :: 0 <= i < |xs| && (h + t)[k] in f(xs[i])
      {
        if k < |h| {
          assert (h + t)[k] in f(xs[0]);
        } else {
          var i :| 0 <= i < |xs[1..]| && t[k - |h|] in f(xs[1..][i]);
          assert xs[1..][i] == xs[i + 1];
        }
      }
      assert forall k :: 0 <= k < |Comprehend(xs, f)| ==>
               exists i :: 0 <= i < |xs| && Comprehend(xs, f)[k] in f(xs[i]);
    } else {
      assert Comprehend(xs, f) == [];
    }
  }

  lemma ComprehendOne<A, B>(x: A, f: A -> seq<B>)
    ensures Comprehend([x], f) == f(x)
  {
    assert [x][1..] == [];
  }
}
