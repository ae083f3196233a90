/**
 The graph the cycle detector runs on, and the baseline its findings are
 compared with.
 */
module Architecture {
  import opened Orders
  import opened Graphs
  import ImportCycles

  // The import graph -----------------------------------------------------

  /** `c` is the dotted name `t` or one of its packages. */
  predicate DottedPrefix(c: string, t: string) {
    c <= t && (|c| == |t| || t[|c|] == '.')
  }

  /** `name.rpartition(".")[0]`: what precedes the last dot, or nothing. */
  function Parent(name: string): (r: string)
    ensures r <= name && (name != "" ==> |r| < |name|)
  {
    if name == "" then ""
    else if name[|name| - 1] == '.' then name[..|name| - 1]
    else Parent(name[..|name| - 1])
  }

  lemma {:induction false} ParentIsNext(name: string)
    requires name != ""
    ensures Parent(name) == "" || name[|Parent(name)|] == '.'
    ensures forall d :: DottedPrefix(d, name) && d != name && d != "" ==> |d| <= |Parent(name)|
  {
    var init := name[..|name| - 1];
    if name[|name| - 1] != '.' {
      if init != "" {
        ParentIsNext(init);
      }
      forall d | DottedPrefix(d, name) && d != name && d != ""
        ensures |d| <= |Parent(name)|
      {
        assert DottedPrefix(d, init);
      }
    }
  }

  /** `c` is the longest package of `target` that is a module other than `name` itself. */
  ghost predicate Resolves(modules: set<Node>, name: Node, target: string, c: Node) {
    && DottedPrefix(c, target) && c != "" && c in modules && c != name
    && forall d :: DottedPrefix(d, target) && |d| > |c| ==> d !in modules || d == name
  }

  ghost predicate Imports(modules: map<Node, seq<string>>, name: Node, c: Node)
    requires name in modules
  {
    exists k :: 0 <= k < |modules[name]| && Resolves(modules.Keys, name, modules[name][k], c)
  }

  /** The `while candidate` loop over one imported name. */
  method Resolve(modules: set<Node>, name: Node, target: string) returns (r: set<Node>)
    ensures forall c :: c in r <==> Resolves(modules, name, target, c)
  {
    var candidate := target;
    while candidate != ""
      invariant candidate == "" || DottedPrefix(candidate, target)
      invariant forall d :: DottedPrefix(d, target) && |d| > |candidate| ==> d !in modules || d == name
      decreases |candidate|
    {
      if candidate in modules && candidate != name {
        forall c | Resolves(modules, name, target, c)
          ensures c == candidate
        {
          assert |c| == |candidate|;
        }
        return {candidate};
      }
      ParentIsNext(candidate);
      forall d | DottedPrefix(d, target) && |d| > |Parent(candidate)|
        ensures d !in modules || d == name
      {
        if |d| < |candidate| {
          assert DottedPrefix(d, candidate);
        } else if |d| == |candidate| {
          assert d == candidate;
        }
      }
      candidate := Parent(candidate);
    }
    return {};
  }

  /** Every module with the modules it imports; `modules` holds what each file's imports name. */
  method ImportGraph(modules: map<Node, seq<string>>) returns (g: Graph)
    ensures g.Keys == modules.Keys
    ensures forall x, c :: x in g ==> (c in g[x] <==> Imports(modules, x, c))
    ensures Closed(g)
    ensures forall x :: x in g ==> x !in g[x]
  {
    g := map[];
    var rest := modules.Keys;
    while rest != {}
      invariant g.Keys !! rest && g.Keys + rest == modules.Keys
      invariant forall x, c :: x in g ==> (c in g[x] <==> Imports(modules, x, c))
      decreases rest
    {
      var name :| name in rest;
      var edges: set<Node> := {};
      for k := 0 to |modules[name]|
        invariant forall c :: c in edges <==>
                    exists j :: 0 <= j < k && Resolves(modules.Keys, name, modules[name][j], c)
      {
        var found := Resolve(modules.Keys, name, modules[name][k]);
        edges := edges + found;
      }
      g := g[name := edges];
      rest := rest - {name};
    }
  }

  /** From imports to reported cycles. */
  method ImportCyclesOf(modules: map<Node, seq<string>>) returns (g: Graph, r: seq<seq<Node>>)
    ensures g.Keys == modules.Keys
    ensures forall x, c :: x in g ==> (c in g[x] <==> Imports(modules, x, c))
    ensures ImportCycles.Report(g, r)
  {
    g := ImportGraph(modules);
    r := ImportCycles.StronglyConnected(g);
  }

  // The baseline ------------------------------------------------------------

  datatype Kind = Files | Functions | Classes

  function DefaultLimit(kind: Kind): nat {
    match kind
    case Files => 1500
    case Functions => 200
    case Classes => 800
  }

  type Sizes = map<string, nat>

  datatype Baseline = Baseline(sizes: map<Kind, Sizes>, cycles: seq<seq<Node>>)

  /** `baseline.get(kind, {})`. */
  function Recorded(b: map<Kind, Sizes>, kind: Kind): Sizes {
    if kind in b then b[kind] else map[]
  }

  datatype Failure =
    | StaleEntry(kind: Kind, key: string)
    | OverDefault(kind: Kind, key: string)
    | Grew(kind: Kind, key: string)
    | Slack(kind: Kind, key: string)
    | Unneeded(kind: Kind, key: string)
    | NewCycle(cycle: seq<Node>)
    | StaleCycle(cycle: seq<Node>)

  /** What each failure reports. */
  ghost predicate Justified(b: Baseline, current: map<Kind, Sizes>, cycles: seq<seq<Node>>, f: Failure) {
    match f
    case NewCycle(c) => c in cycles && c !in b.cycles
    case StaleCycle(c) => c in b.cycles && c !in cycles
    case _ => SizeJustified(Recorded(b.sizes, f.kind), Recorded(current, f.kind), f)
  }

  ghost predicate SizeJustified(allowed: Sizes, sizes: Sizes, f: Failure)
    requires !f.NewCycle? && !f.StaleCycle?
  {
    var limit := DefaultLimit(f.kind);
    match f
    case StaleEntry(_, key) => key in allowed && key !in sizes
    case OverDefault(_, key) => key in sizes && key !in allowed && sizes[key] > limit
    case Grew(_, key) => key in sizes && key in allowed && sizes[key] > allowed[key]
    case Slack(_, key) => key in sizes && key in allowed && sizes[key] < allowed[key]
    case Unneeded(_, key) => key in sizes && key in allowed && sizes[key] == allowed[key] && sizes[key] <= limit
  }

  /** The failures one kind of definition causes. */
  method SizeFailures(kind: Kind, allowed: Sizes, sizes: Sizes) returns (failures: seq<Failure>)
    ensures forall f :: f in failures <==>
              !f.NewCycle? && !f.StaleCycle? && f.kind == kind && SizeJustified(allowed, sizes, f)
  {
    failures := [];
    var rest := allowed.Keys + sizes.Keys;
    ghost var done: set<string> := {};
    while rest != {}
      invariant done + rest == allowed.Keys + sizes.Keys && done !! rest
      invariant forall f :: f in failures <==>
                  !f.NewCycle? && !f.StaleCycle? && f.kind == kind && f.key in done && SizeJustified(allowed, sizes, f)
      decreases rest
    {
      var key :| key in rest;
      if key !in sizes {
        failures := failures + [StaleEntry(kind, key)];
      } else if key !in allowed {
        if sizes[key] > DefaultLimit(kind) {
          failures := failures + [OverDefault(kind, key)];
        }
      } else if sizes[key] > allowed[key] {
        failures := failures + [Grew(kind, key)];
      } else if sizes[key] < allowed[key] {
        failures := failures + [Slack(kind, key)];
      } else if sizes[key] <= DefaultLimit(kind) {
        failures := failures + [Unneeded(kind, key)];
      }
      rest := rest - {key};
      done := done + {key};
    }
  }

  method CycleFailures(recorded: seq<seq<Node>>, cycles: seq<seq<Node>>) returns (failures: seq<Failure>)
    ensures forall f :: f in failures <==>
              || (f.NewCycle? && f.cycle in cycles && f.cycle !in recorded)
              || (f.StaleCycle? && f.cycle in recorded && f.cycle !in cycles)
  {
    failures := [];
    for i := 0 to |cycles|
      invariant forall f :: f in failures <==> f.NewCycle? && f.cycle in cycles[..i] && f.cycle !in recorded
    {
      if cycles[i] !in recorded {
        failures := failures + [NewCycle(cycles[i])];
      }
    }
    for i := 0 to |recorded|
      invariant forall f :: f in failures <==>
                  || (f.NewCycle? && f.cycle in cycles && f.cycle !in recorded)
                  || (f.StaleCycle? && f.cycle in recorded[..i] && f.cycle !in cycles)
    {
      if recorded[i] !in cycles {
        failures := failures + [StaleCycle(recorded[i])];
      }
    }
  }

  method BaselineFailures(b: Baseline, current: map<Kind, Sizes>, cycles: seq<seq<Node>>)
      returns (failures: seq<Failure>)
    ensures forall f :: f in failures <==> Justified(b, current, cycles, f)
    ensures failures == [] <==> Matches(b, current, cycles)
  {
    var files := SizeFailures(Files, Recorded(b.sizes, Files), Recorded(current, Files));
    var functions := SizeFailures(Functions, Recorded(b.sizes, Functions), Recorded(current, Functions));
    var classes := SizeFailures(Classes, Recorded(b.sizes, Classes), Recorded(current, Classes));
    var loops := CycleFailures(b.cycles, cycles);
    failures := files + functions + classes + loops;
    forall f
      ensures f in failures <==> Justified(b, current, cycles, f)
    {
      assert f in failures <==> f in files || f in functions || f in classes || f in loops;
    }
    NothingJustified(b, current, cycles);
    if failures != [] {
      assert failures[0] in failures;
    }
  }

  /** What `--write-baseline` records of one kind: the sizes above the default limit. */
  function Oversized(kind: Kind, sizes: Sizes): Sizes {
    map key | key in sizes && sizes[key] > DefaultLimit(kind) :: sizes[key]
  }

  /** `generated_baseline`. */
  function Generated(current: map<Kind, Sizes>, cycles: seq<seq<Node>>): Baseline {
    Baseline(map kind | kind in {Files, Functions, Classes} :: Oversized(kind, Recorded(current, kind)), cycles)
  }

  /** The baseline records exactly the oversized definitions at their current size, and exactly the current cycles. */
  ghost predicate Matches(b: Baseline, current: map<Kind, Sizes>, cycles: seq<seq<Node>>) {
    && (forall kind :: Recorded(b.sizes, kind) == Oversized(kind, Recorded(current, kind)))
    && Elems(b.cycles) == Elems(cycles)
  }

  lemma OversizedJustified(kind: Kind, allowed: Sizes, sizes: Sizes)
    ensures allowed == Oversized(kind, sizes) <==>
            forall f: Failure :: !f.NewCycle? && !f.StaleCycle? && f.kind == kind ==> !SizeJustified(allowed, sizes, f)
  {
    var quiet := forall f: Failure :: !f.NewCycle? && !f.StaleCycle? && f.kind == kind
                   ==> !SizeJustified(allowed, sizes, f);
    if quiet {
      forall key | key in allowed.Keys + sizes.Keys
        ensures key in allowed <==> key in Oversized(kind, sizes)
        ensures key in allowed ==> allowed[key] == sizes[key]
      {
        assert !SizeJustified(allowed, sizes, StaleEntry(kind, key));
        assert !SizeJustified(allowed, sizes, OverDefault(kind, key));
        assert !SizeJustified(allowed, sizes, Grew(kind, key));
        assert !SizeJustified(allowed, sizes, Slack(kind, key));
        assert !SizeJustified(allowed, sizes, Unneeded(kind, key));
      }
      assert allowed.Keys == Oversized(kind, sizes).Keys;
    }
  }

  lemma NothingJustified(b: Baseline, current: map<Kind, Sizes>, cycles: seq<seq<Node>>)
    ensures Matches(b, current, cycles) <==> forall f :: !Justified(b, current, cycles, f)
  {
    forall kind
      ensures Recorded(b.sizes, kind) == Oversized(kind, Recorded(current, kind)) <==>
              forall f: Failure ::
                !f.NewCycle? && !f.StaleCycle? && f.kind == kind ==> !Justified(b, current, cycles, f)
    {
      OversizedJustified(kind, Recorded(b.sizes, kind), Recorded(current, kind));
    }
    if Matches(b, current, cycles) {
      forall f
        ensures !Justified(b, current, cycles, f)
      {
        if f.NewCycle? || f.StaleCycle? {
          assert f.cycle in Elems(b.cycles) <==> f.cycle in Elems(cycles);
        } else {
          assert Recorded(b.sizes, f.kind) == Oversized(f.kind, Recorded(current, f.kind));
        }
      }
    }
    if forall f :: !Justified(b, current, cycles, f) {
      forall c
        ensures c in b.cycles <==> c in cycles
      {
        assert !Justified(b, current, cycles, NewCycle(c));
        assert !Justified(b, current, cycles, StaleCycle(c));
      }
    }
  }

  /** The baseline just written passes the check. */
  lemma GeneratedMatches(current: map<Kind, Sizes>, cycles: seq<seq<Node>>)
    ensures Matches(Generated(current, cycles), current, cycles)
  {
    forall kind
      ensures Recorded(Generated(current, cycles).sizes, kind) == Oversized(kind, Recorded(current, kind))
    {
      match kind
      case Files =>
      case Functions =>
      case Classes =>
    }
  }
}
