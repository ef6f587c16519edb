/** Result and option types shared by the models of the broker's components. */
module Basics {

  datatype Option<+T> = None | Some(value: T)

  /** A fallible result, usable with the `:-` operator. */
  datatype Result<+T, +E> = Ok(value: T) | Err(error: E) {
    predicate IsFailure() {
      Err?
    }

    function PropagateFailure<U>(): Result<U, E>
      requires Err?
    {
      Err(error)
    }

    function Extract(): T
      requires Ok?
    {
      value
    }
  }

  /** The number of elements of a set is kept by a map that sends different elements to different ones. */
  lemma {:induction false} InjectiveImageSize<T, U>(s: set<T>, image: set<U>, f: T -> U)
    requires forall x, y :: x in s && y in s && f(x) == f(y) ==> x == y
    requires forall x :: x in s ==> f(x) in image
    requires forall u :: u in image ==> exists x :: x in s && f(x) == u
    ensures |s| == |image|
  {
    if s == {} {
      assert image == {};
    } else {
      var x :| x in s;
      var rest := image - {f(x)};
      forall u | u in rest ensures exists y :: y in s - {x} && f(y) == u {
        var y :| y in s && f(y) == u;
        assert y in s - {x};
      }
      InjectiveImageSize(s - {x}, rest, f);
    }
  }

  /** 2 to the 64th. */
  const U64 := 0x1_0000_0000_0000_0000

  /** A path without its last step; the empty path is its own parent. */
  function Parent<T>(p: seq<T>): seq<T> {
    if p == [] then [] else p[..|p| - 1]
  }

  ghost predicate Distinct<T>(s: seq<T>) {
    forall i, j :: 0 <= i < j < |s| ==> s[i] != s[j]
  }

  lemma AnElement<T>(s: set<T>) returns (x: T)
    requires s != {}
    ensures x in s
  {
    x :| x in s;
  }

  lemma MapUpdateSize<K, V>(m: map<K, V>, k: K, v: V)
    ensures |m[k := v]| == |m| + if k in m then 0 else 1
    ensures m[k := v].Keys == m.Keys + {k}
  {
    assert m[k := v].Keys == m.Keys + {k};
    assert |m.Keys| == |m| && |m[k := v].Keys| == |m[k := v]|;
    if k in m {
      assert m.Keys + {k} == m.Keys;
    }
  }

  lemma MapRemoveSize<K, V>(m: map<K, V>, k: K)
    ensures |m - {k}| == |m| - if k in m then 1 else 0
    ensures (m - {k}).Keys == m.Keys - {k}
  {
    assert (m - {k}).Keys == m.Keys - {k};
    assert |m.Keys| == |m| && |(m - {k}).Keys| == |m - {k}|;
  }
}
