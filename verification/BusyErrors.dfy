/** Recognising SQLite's busy errors anywhere in a graph of wrapped errors, store/retry.go:20-51. */
module BusyErrors {
  import opened Wrappers

  type Err = nat

  /** What an error wraps: nothing, one error, or several; a wrapped error may be nil. */
  datatype Wrapped = Nothing | One(inner: Option<Err>) | Many(inners: seq<Option<Err>>)

  /** `code` is the result of an error's integer-valued Code method, if it has one. */
  datatype ErrorNode = ErrorNode(code: Option<int>, wrapped: Wrapped)

  /** The errors with a code or an inner error, and how they wrap each other, possibly in cycles. */
  type Graph = map<Err, ErrorNode>

  function Node(g: Graph, err: Err): ErrorNode {
    if err in g then g[err] else ErrorNode(None, Nothing)
  }

  const SQLITE_BUSY := 5
  const SQLITE_LOCKED := 6

  predicate HasBusyCode(node: ErrorNode) {
    node.code == Some(SQLITE_BUSY) || node.code == Some(SQLITE_LOCKED)
  }

  ghost predicate Wraps(g: Graph, a: Err, b: Err) {
    match Node(g, a).wrapped
    case Nothing => false
    case One(inner) => inner == Some(b)
    case Many(inners) => Some(b) in inners
  }

  /** Each error of the path wraps the next. */
  ghost predicate IsPath(g: Graph, path: seq<Err>) {
    path != [] && forall i :: 0 <= i < |path| - 1 ==> Wraps(g, path[i], path[i + 1])
  }

  ghost predicate Reaches(g: Graph, a: Err, b: Err) {
    exists path :: IsPath(g, path) && path[0] == a && path[|path| - 1] == b
  }

  /** Some error that unwrapping leads to, the error itself included, has a busy code. */
  ghost predicate WrapsBusy(g: Graph, err: Err) {
    exists e :: Reaches(g, err, e) && HasBusyCode(Node(g, e))
  }

  lemma BusyItself(g: Graph, err: Err)
    requires HasBusyCode(Node(g, err))
    ensures WrapsBusy(g, err)
  {
    assert IsPath(g, [err]);
  }

  lemma BusyWithin(g: Graph, a: Err, b: Err)
    requires Wraps(g, a, b) && WrapsBusy(g, b)
    ensures WrapsBusy(g, a)
  {
    var e :| Reaches(g, b, e) && HasBusyCode(Node(g, e));
    var path :| IsPath(g, path) && path[0] == b && path[|path| - 1] == e;
    var longer := [a] + path;
    forall i | 0 <= i < |longer| - 1 ensures Wraps(g, longer[i], longer[i + 1]) {
      assert i > 0 ==> longer[i] == path[i - 1];
    }
    assert IsPath(g, longer) && longer[|longer| - 1] == e;
  }

  /** The map of errors seen, shared by the whole search. */
  class Visited {
    var errors: set<Err>

    constructor ()
      ensures errors == {}
    {
      errors := {};
    }
  }

  /** The errors are not busy, and everything they wrap is among `all`. */
  ghost predicate Explored(g: Graph, errors: set<Err>, all: set<Err>) {
    forall a :: a in errors ==> !HasBusyCode(Node(g, a)) && forall b :: Wraps(g, a, b) ==> b in all
  }

  /** A depth-first search. When it finds nothing, it has explored every error it was first to visit. */
  method IsBusyWalk(err: Option<Err>, g: Graph, visited: Visited) returns (busy: bool)
    modifies visited
    ensures old(visited.errors) <= visited.errors
    ensures busy ==> err.Some? && WrapsBusy(g, err.value)
    ensures !busy ==> Explored(g, visited.errors - old(visited.errors), visited.errors)
    ensures !busy && err.Some? ==> err.value in visited.errors
    decreases g.Keys - visited.errors
  {
    if err.None? || err.value in visited.errors {
      return false;
    }
    ghost var before := visited.errors;
    visited.errors := visited.errors + {err.value};
    if HasBusyCode(Node(g, err.value)) {
      BusyItself(g, err.value);
      return true;
    }
    match Node(g, err.value).wrapped {
      case Nothing =>
      case One(inner) =>
        assert inner.Some? ==> Wraps(g, err.value, inner.value);
        busy := IsBusyWalk(inner, g, visited);
        if busy {
          BusyWithin(g, err.value, inner.value);
          return true;
        }
      case Many(inners) =>
        for i := 0 to |inners|
          invariant before + {err.value} <= visited.errors
          invariant Explored(g, visited.errors - before - {err.value}, visited.errors)
          invariant forall k :: 0 <= k < i && inners[k].Some? ==> inners[k].value in visited.errors
        {
          assert inners[i].Some? ==> Wraps(g, err.value, inners[i].value);
          busy := IsBusyWalk(inners[i], g, visited);
          if busy {
            BusyWithin(g, err.value, inners[i].value);
            return true;
          }
        }
    }
    return false;
  }

  /** Everything reachable from an explored, closed set of errors lies in it. */
  lemma {:induction false} ExploredHasNoBusy(g: Graph, errors: set<Err>, path: seq<Err>)
    requires Explored(g, errors, errors) && IsPath(g, path) && path[0] in errors
    ensures path[|path| - 1] in errors
  {
    if |path| > 1 {
      assert Wraps(g, path[0], path[1]);
      forall i | 0 <= i < |path[1..]| - 1 ensures Wraps(g, path[1..][i], path[1..][i + 1]) {
        assert Wraps(g, path[i + 1], path[i + 2]);
      }
      ExploredHasNoBusy(g, errors, path[1..]);
    }
  }

  /** On every finite graph, cyclic or not: true exactly when a busy code is reachable by unwrapping. */
  method IsBusyError(err: Err, g: Graph) returns (busy: bool)
    ensures busy <==> WrapsBusy(g, err)
    ensures busy <==> exists e :: Reaches(g, err, e) && (Node(g, e).code == Some(5) || Node(g, e).code == Some(6))
  {
    var visited := new Visited();
    busy := IsBusyWalk(Some(err), g, visited);
    if !busy {
      var errors := visited.errors;
      assert errors - {} == errors;
      forall e | Reaches(g, err, e) ensures e in errors {
        var path :| IsPath(g, path) && path[0] == err && path[|path| - 1] == e;
        ExploredHasNoBusy(g, errors, path);
      }
    }
  }
}
