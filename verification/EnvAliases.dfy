/**
 Which local names hold an environment value: the names assigned exactly once
 whose chain of aliases ends in an environment read.
 */
module EnvAliases {
  import opened Orders
  import opened Wrappers

  /** What a single-assignment name is bound to, passthrough calls taken off. */
  datatype Source = Read(key: string) | Ref(name: string) | Other

  type Aliases = map<string, Source>

  /** The key at the end of the chain from a name, within `depth` references. */
  ghost function KeyWithin(aliases: Aliases, name: string, depth: nat): Option<string>
    decreases depth
  {
    if name !in aliases then None
    else match aliases[name]
      case Read(key) => Some(key)
      case Ref(next) => if depth == 0 then None else KeyWithin(aliases, next, depth - 1)
      case Other => None
  }

  /** The chain of aliases from `name` ends in a read of `key`. */
  ghost predicate EndsIn(aliases: Aliases, name: string, key: string) {
    exists depth: nat :: KeyWithin(aliases, name, depth) == Some(key)
  }

  lemma {:induction false} KeyStable(aliases: Aliases, name: string, a: nat, b: nat)
    requires a <= b && KeyWithin(aliases, name, a).Some?
    ensures KeyWithin(aliases, name, b) == KeyWithin(aliases, name, a)
    decreases a
  {
    if aliases[name].Ref? {
      KeyStable(aliases, aliases[name].name, a - 1, b - 1);
    }
  }

  /** A chain ends in at most one key. */
  lemma EndsInOne(aliases: Aliases, name: string, k: string, l: string)
    requires EndsIn(aliases, name, k) && EndsIn(aliases, name, l)
    ensures k == l
  {
    var a: nat :| KeyWithin(aliases, name, a) == Some(k);
    var b: nat :| KeyWithin(aliases, name, b) == Some(l);
    if a <= b {
      KeyStable(aliases, name, a, b);
    } else {
      KeyStable(aliases, name, b, a);
    }
  }

  lemma EndsInStep(aliases: Aliases, name: string, next: string, key: string)
    requires name in aliases && aliases[name] == Ref(next) && EndsIn(aliases, next, key)
    ensures EndsIn(aliases, name, key)
  {
    var d: nat :| KeyWithin(aliases, next, d) == Some(key);
    assert KeyWithin(aliases, name, d + 1) == Some(key);
  }

  lemma EndsInRead(aliases: Aliases, name: string, key: string)
    requires name in aliases && aliases[name] == Read(key)
    ensures EndsIn(aliases, name, key)
  {
    assert KeyWithin(aliases, name, 0) == Some(key);
  }

  /** The key a name gets from what is resolved so far. */
  function Lookup(aliases: Aliases, resolved: map<string, string>, name: string): Option<string>
    requires name in aliases
  {
    match aliases[name]
    case Read(key) => Some(key)
    case Ref(next) => if next in resolved then Some(resolved[next]) else None
    case Other => None
  }

  ghost predicate Sound(aliases: Aliases, resolved: map<string, string>) {
    forall n :: n in resolved ==> n in aliases && EndsIn(aliases, n, resolved[n])
  }

  /** Nothing more can be resolved. */
  ghost predicate Fixpoint(aliases: Aliases, resolved: map<string, string>) {
    forall n :: n in aliases && n !in resolved ==> Lookup(aliases, resolved, n).None?
  }

  /** At a fixpoint every chain that ends in a read has been followed. */
  lemma {:induction false} FixpointComplete(aliases: Aliases, resolved: map<string, string>, name: string, depth: nat)
    requires Fixpoint(aliases, resolved) && KeyWithin(aliases, name, depth).Some?
    ensures name in resolved
    decreases depth
  {
    match aliases[name]
    case Read(_) =>
      assert Lookup(aliases, resolved, name).Some?;
    case Ref(next) =>
      FixpointComplete(aliases, resolved, next, depth - 1);
      assert Lookup(aliases, resolved, name).Some?;
  }

  lemma LookupSound(aliases: Aliases, resolved: map<string, string>, name: string)
    requires Sound(aliases, resolved) && name in aliases && Lookup(aliases, resolved, name).Some?
    ensures EndsIn(aliases, name, Lookup(aliases, resolved, name).value)
  {
    match aliases[name]
    case Read(key) => EndsInRead(aliases, name, key);
    case Ref(next) => EndsInStep(aliases, name, next, resolved[next]);
  }

  /** One pass over the names in order; without progress, nothing more can be resolved. */
  method Round(aliases: Aliases, names: seq<string>, resolved: map<string, string>)
      returns (more: map<string, string>, progressed: bool)
    requires forall n :: n in names <==> n in aliases
    requires Sound(aliases, resolved)
    ensures Sound(aliases, more) && resolved.Keys <= more.Keys
    ensures progressed ==> resolved.Keys < more.Keys
    ensures !progressed ==> more == resolved && Fixpoint(aliases, resolved)
  {
    more, progressed := resolved, false;
    for k := 0 to |names|
      invariant Sound(aliases, more) && resolved.Keys <= more.Keys
      invariant progressed ==> resolved.Keys < more.Keys
      invariant !progressed ==> more == resolved
      invariant !progressed ==>
        forall i :: 0 <= i < k && names[i] !in resolved ==> Lookup(aliases, resolved, names[i]).None?
    {
      var name := names[k];
      if name in more {
        continue;
      }
      var key := Lookup(aliases, more, name);
      if key.Some? {
        LookupSound(aliases, more, name);
        more := more[name := key.value];
        progressed := true;
      }
    }
  }

  /** Within one round more than there are names the least fixpoint is reached: the chains that end in a read. */
  method ResolveAliases(aliases: Aliases, names: seq<string>) returns (resolved: map<string, string>)
    requires forall n :: n in names <==> n in aliases
    ensures forall n, k :: n in resolved && resolved[n] == k <==> EndsIn(aliases, n, k)
    ensures Fixpoint(aliases, resolved)
  {
    resolved := map[];
    var rounds := 0;
    var progressed := true;
    while rounds < |aliases| + 1 && progressed
      invariant Sound(aliases, resolved) && resolved.Keys <= aliases.Keys
      invariant 0 <= rounds <= |aliases| + 1
      invariant progressed ==> rounds <= |resolved.Keys|
      invariant !progressed ==> Fixpoint(aliases, resolved)
    {
      var before := resolved;
      resolved, progressed := Round(aliases, names, before);
      if progressed {
        SubsetSize(before.Keys, resolved.Keys);
      }
      rounds := rounds + 1;
    }
    SubsetSize(resolved.Keys, aliases.Keys);
    Complete(aliases, resolved);
  }

  lemma Complete(aliases: Aliases, resolved: map<string, string>)
    requires Sound(aliases, resolved) && Fixpoint(aliases, resolved)
    ensures forall n, k :: n in resolved && resolved[n] == k <==> EndsIn(aliases, n, k)
  {
    forall n, k
      ensures n in resolved && resolved[n] == k <==> EndsIn(aliases, n, k)
    {
      if EndsIn(aliases, n, k) {
        var d: nat :| KeyWithin(aliases, n, d) == Some(k);
        FixpointComplete(aliases, resolved, n, d);
        EndsInOne(aliases, n, k, resolved[n]);
      }
    }
  }

  // Cycles ------------------------------------------------------------------------------

  /** The name reached after a number of references. */
  ghost function Follow(aliases: Aliases, name: string, steps: nat): Option<string>
    decreases steps
  {
    if steps == 0 then Some(name)
    else if name in aliases && aliases[name].Ref? then Follow(aliases, aliases[name].name, steps - 1)
    else None
  }

  lemma {:induction false} FollowKey(aliases: Aliases, name: string, steps: nat, depth: nat)
    requires Follow(aliases, name, steps).Some? && KeyWithin(aliases, name, depth).Some?
    ensures steps <= depth
    ensures KeyWithin(aliases, Follow(aliases, name, steps).value, depth - steps) == KeyWithin(aliases, name, depth)
    decreases steps
  {
    if steps > 0 {
      FollowKey(aliases, aliases[name].name, steps - 1, depth - 1);
    }
  }

  lemma {:induction false} CycleHasNoKey(aliases: Aliases, name: string, steps: nat, depth: nat)
    requires steps > 0 && Follow(aliases, name, steps) == Some(name)
    ensures KeyWithin(aliases, name, depth).None?
    decreases depth
  {
    if KeyWithin(aliases, name, depth).Some? {
      FollowKey(aliases, name, steps, depth);
      CycleHasNoKey(aliases, name, steps, depth - steps);
    }
  }

  /** A name on a cycle of aliases stays unresolved. */
  lemma CycleUnresolved(aliases: Aliases, name: string, steps: nat, key: string)
    requires steps > 0 && Follow(aliases, name, steps) == Some(name)
    ensures !EndsIn(aliases, name, key)
  {
    forall depth: nat
      ensures KeyWithin(aliases, name, depth) != Some(key)
    {
      CycleHasNoKey(aliases, name, steps, depth);
    }
  }
}
