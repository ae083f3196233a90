/**
 What goes into a component wheel: the closure of its root modules under
 imports and parent packages.
 */
module Wheels {
  import opened Orders
  import opened Wrappers

  // The dependency closure ----------------------------------------------------

  /** A dotted module name, as its parts. */
  type Name = seq<string>

  /** The known modules, each with the known modules it imports or names. */
  type Modules = map<Name, set<Name>>

  const ROOT_PACKAGE: Name := ["gpu_fault"]

  ghost predicate Known(modules: Modules) {
    forall m :: m in modules ==> modules[m] <= modules.Keys
  }

  /** The existing ones among the packages `m[..1]`, ..., `m[..n - 1]`. */
  function ParentsTo(modules: Modules, m: Name, n: nat): (r: set<Name>)
    requires n <= |m|
    ensures r <= modules.Keys
    ensures forall i :: 1 <= i < n && m[..i] in modules ==> m[..i] in r
    ensures forall p :: p in r ==> 1 <= |p| < n && p == m[..|p|]
  {
    if n <= 1 then {}
    else ParentsTo(modules, m, n - 1) + if m[..n - 1] in modules then {m[..n - 1]} else {}
  }

  /** The packages a module lies in that exist as modules. */
  function Parents(modules: Modules, m: Name): set<Name> {
    ParentsTo(modules, m, |m|)
  }

  function Needs(modules: Modules, m: Name): set<Name>
    requires m in modules
  {
    modules[m] + Parents(modules, m)
  }

  /** Closed under imports and existing parent packages. */
  ghost predicate ClosedUnder(modules: Modules, s: set<Name>) {
    forall m :: m in s && m in modules ==> Needs(modules, m) <= s
  }

  /** `s` is the least closed set with the roots in it. */
  ghost predicate Least(modules: Modules, roots: set<Name>, s: set<Name>) {
    && roots <= s && ClosedUnder(modules, s)
    && forall t :: roots <= t && ClosedUnder(modules, t) ==> s <= t
  }

  /** The parent packages of one module that are not selected yet, as the loop appends them. */
  method ParentsOf(modules: Modules, m: Name, selected: set<Name>) returns (more: seq<Name>)
    ensures Elems(more) == Parents(modules, m) - selected
  {
    more := [];
    var index := 1;
    while index < |m|
      invariant 1 <= index && (index <= |m| || |m| == 0)
      invariant Elems(more) == ParentsTo(modules, m, if index <= |m| then index else 0) - selected
    {
      var parent := m[..index];
      if parent in modules && parent !in selected {
        assert Elems(more + [parent]) == Elems(more) + {parent};
        more := more + [parent];
      }
      index := index + 1;
    }
  }

  /** What one module adds to the worklist: its imports, then its parent packages. */
  method Expand(modules: Modules, m: Name, selected: set<Name>) returns (more: seq<Name>)
    requires m in modules
    ensures Elems(more) == Needs(modules, m) - selected
  {
    var imports := ListOf(modules[m] - selected);
    var parents := ParentsOf(modules, m, selected);
    assert Elems(imports + parents) == Elems(imports) + Elems(parents);
    more := imports + parents;
  }

  /** What the worklist loop keeps. */
  ghost predicate Working(modules: Modules, roots: set<Name>, selected: set<Name>, pending: seq<Name>) {
    && selected + Elems(pending) <= modules.Keys
    && roots <= selected + Elems(pending)
    && (forall m :: m in selected ==> Needs(modules, m) <= selected + Elems(pending))
    && (forall t :: roots <= t && ClosedUnder(modules, t) ==> selected + Elems(pending) <= t)
  }

  lemma PopSelected(modules: Modules, roots: set<Name>, selected: set<Name>, pending: seq<Name>, m: Name)
    requires Working(modules, roots, selected, pending + [m]) && m in selected
    ensures Working(modules, roots, selected, pending)
  {
    assert Elems(pending + [m]) == Elems(pending) + {m};
    assert selected + Elems(pending + [m]) == selected + Elems(pending);
  }

  lemma PopNew(modules: Modules, roots: set<Name>, selected: set<Name>, pending: seq<Name>, m: Name, more: seq<Name>)
    requires Known(modules) && Working(modules, roots, selected, pending + [m]) && m !in selected
    requires Elems(more) == Needs(modules, m) - (selected + {m})
    ensures Working(modules, roots, selected + {m}, pending + more)
  {
    assert Elems(pending + [m]) == Elems(pending) + {m};
    assert Elems(pending + more) == Elems(pending) + Elems(more);
    var before, after := selected + Elems(pending + [m]), selected + {m} + Elems(pending + more);
    assert after == before + Needs(modules, m);
    forall t | roots <= t && ClosedUnder(modules, t)
      ensures after <= t
    {
      assert before <= t && m in t;
    }
  }

  /** The roots with everything they need, and the root package; an error names the unknown roots. */
  method DependencyClosure(modules: Modules, roots: seq<Name>)
      returns (r: Result<set<Name>, set<Name>>, ghost core: set<Name>)
    requires Known(modules)
    ensures r.Err? <==> !(Elems(roots) <= modules.Keys)
    ensures r.Err? ==> r.error == Elems(roots) - modules.Keys
    ensures r.Ok? ==> Least(modules, Elems(roots), core) && r.value == core + {ROOT_PACKAGE}
  {
    core := {};
    var missing := Elems(roots) - modules.Keys;
    if missing != {} {
      return Err(missing), core;
    }
    var selected: set<Name> := {};
    var pending := roots;
    while pending != []
      invariant Working(modules, Elems(roots), selected, pending)
      decreases modules.Keys - selected, |pending|
    {
      var next := pending[|pending| - 1];
      assert pending == pending[..|pending| - 1] + [next];
      pending := pending[..|pending| - 1];
      if next in selected {
        PopSelected(modules, Elems(roots), selected, pending, next);
      } else {
        assert next in pending + [next];
        var more := Expand(modules, next, selected + {next});
        PopNew(modules, Elems(roots), selected, pending, next, more);
        selected := selected + {next};
        pending := pending + more;
      }
    }
    core := selected;
    r := Ok(selected + {ROOT_PACKAGE});
  }

  /** One root inside the root package suffices for the whole result to be closed. */
  lemma ResultClosed(modules: Modules, roots: set<Name>, core: set<Name>, root: Name)
    requires Known(modules) && Least(modules, roots, core) && root in roots && root in modules
    requires root != [] && root[0] == "gpu_fault" && ROOT_PACKAGE in modules
    ensures core + {ROOT_PACKAGE} == core && ClosedUnder(modules, core)
  {
    assert root[..1] == ROOT_PACKAGE;
    if |root| == 1 {
      assert root == root[..1];
    } else {
      assert ROOT_PACKAGE in Parents(modules, root);
      assert Needs(modules, root) <= core;
    }
  }
}
