/** Resolving permissions that are merely another name for a relation or permission. */
module Aliasing {
  import opened Common
  import opened Tuples
  import opened CheckSemantics

  /** The definition of an object type; `permissions` holds the names whose metadata says so. */
  datatype TypeDefinition = TypeDefinition(relations: Definition, permissions: set<string>) {
    predicate IsPermission(name: string) {
      name in relations && name in permissions
    }

    /** The one name that the rule of `name` consists of, if it does. */
    function References(name: string): Option<string> {
      if name !in relations then None
      else
        match relations[name].rewrite
        case Some(UnionOf(children)) => if |children| == 1 && children[0].ComputedUserset?
            then Some(children[0].relation) else None
        case _ => None
    }
  }

  datatype Aliases = Aliases(targets: map<string, string>) | PermissionsCycle(keys: set<string>)

  // ---- Alias chains.

  /** A resolution stops at what is not a permission, or has a rule of its own. */
  predicate Stops(def: TypeDefinition, name: string) {
    !def.IsPermission(name) || def.References(name).None?
  }

  ghost predicate Chain(def: TypeDefinition, path: seq<string>) {
    && |path| >= 2
    && (forall i | 0 <= i < |path| - 1 :: def.References(path[i]) == Some(path[i + 1]))
    && (forall i | 0 < i < |path| - 1 :: def.IsPermission(path[i]))
  }

  ghost predicate EndsAt(def: TypeDefinition, name: string, end: string) {
    exists path :: Chain(def, path) && path[0] == name && path[|path| - 1] == end && Stops(def, end)
  }

  ghost predicate Endless(def: TypeDefinition, name: string) {
    def.References(name).Some? && !exists end :: EndsAt(def, name, end)
  }

  /** Permissions that refer to each other in a ring. */
  ghost predicate Cycle(def: TypeDefinition, path: seq<string>) {
    Chain(def, path) && path[0] == path[|path| - 1] && def.IsPermission(path[0])
  }

  // ---- The same in terms of the rules as they are written.

  /** The rule of `name` is just the name `target`. */
  ghost predicate NamesOnly(def: TypeDefinition, name: string, target: string) {
    name in def.relations && def.relations[name].rewrite == Some(UnionOf([ComputedUserset(target)]))
  }

  ghost predicate IsAlias(def: TypeDefinition, name: string) {
    exists target :: NamesOnly(def, name, target)
  }

  /** Rules that are just the next name lead from one name to the other, through permissions. */
  ghost predicate Leads(def: TypeDefinition, path: seq<string>) {
    |path| >= 2 && AliasChain(def.relations, path) && forall i | 0 < i < |path| - 1 :: def.IsPermission(path[i])
  }

  /** They lead there and no further. */
  ghost predicate LeadsTo(def: TypeDefinition, name: string, end: string) {
    && (exists path :: Leads(def, path) && path[0] == name && path[|path| - 1] == end)
    && !(def.IsPermission(end) && IsAlias(def, end))
  }

  ghost predicate Ring(def: TypeDefinition, path: seq<string>) {
    Leads(def, path) && path[0] == path[|path| - 1] && def.IsPermission(path[0])
  }

  lemma ReferencesMeans(def: TypeDefinition, name: string)
    ensures forall target :: def.References(name) == Some(target) <==> NamesOnly(def, name, target)
    ensures def.References(name).Some? <==> IsAlias(def, name)
  {
    if def.References(name).Some? {
      var children := def.relations[name].rewrite.value.children;
      assert children == [children[0]];
      assert NamesOnly(def, name, def.References(name).value);
    }
    forall target | NamesOnly(def, name, target) ensures def.References(name) == Some(target) {
      assert |[ComputedUserset(target)]| == 1 && [ComputedUserset(target)][0] == ComputedUserset(target);
    }
  }

  lemma ChainMeans(def: TypeDefinition, path: seq<string>)
    ensures Chain(def, path) <==> Leads(def, path)
  {
    if Leads(def, path) {
      forall i | 0 <= i < |path| - 1 ensures def.References(path[i]) == Some(path[i + 1]) {
        ReferencesMeans(def, path[i]);
        assert NamesOnly(def, path[i], path[i + 1]);
      }
    }
    if Chain(def, path) {
      forall i | 0 <= i < |path| - 1
        ensures path[i] in def.relations
        ensures def.relations[path[i]].rewrite == Some(UnionOf([ComputedUserset(path[i + 1])]))
      {
        ReferencesMeans(def, path[i]);
        assert NamesOnly(def, path[i], path[i + 1]);
      }
    }
  }

  lemma EndMeans(def: TypeDefinition, name: string, end: string)
    ensures EndsAt(def, name, end) <==> LeadsTo(def, name, end)
  {
    ReferencesMeans(def, end);
    if EndsAt(def, name, end) {
      var path :| Chain(def, path) && path[0] == name && path[|path| - 1] == end;
      ChainMeans(def, path);
    }
    if LeadsTo(def, name, end) {
      var path :| Leads(def, path) && path[0] == name && path[|path| - 1] == end;
      ChainMeans(def, path);
    }
  }

  /** What the rules decide of the result. */
  ghost predicate DecidedByRules(def: TypeDefinition, r: Aliases) {
    match r
    case Aliases(targets) =>
      && (forall name :: name in targets <==> IsAlias(def, name))
      && (forall name <- targets :: LeadsTo(def, name, targets[name]))
    case PermissionsCycle(keys) =>
      && (exists path :: Ring(def, path))
      && (forall name :: name in keys <==> IsAlias(def, name) && !exists end :: LeadsTo(def, name, end))
  }

  lemma RulesDecide(def: TypeDefinition, r: Aliases)
    requires r.PermissionsCycle? <==> exists path :: Cycle(def, path)
    requires r.PermissionsCycle? ==> forall name :: name in r.keys <==> Endless(def, name)
    requires r.Aliases? ==> MapsToEnds(def, r.targets)
    ensures DecidedByRules(def, r) && (r.PermissionsCycle? <==> exists path :: Ring(def, path))
  {
    forall path ensures Cycle(def, path) <==> Ring(def, path) {
      ChainMeans(def, path);
    }
    if r.Aliases? {
      TargetsByRules(def, r.targets);
    } else {
      EndlessByRules(def, r.keys);
    }
  }

  lemma TargetsByRules(def: TypeDefinition, targets: map<string, string>)
    requires MapsToEnds(def, targets)
    ensures forall name :: name in targets <==> IsAlias(def, name)
    ensures forall name <- targets :: LeadsTo(def, name, targets[name])
  {
    forall name ensures name in targets <==> IsAlias(def, name) {
      ReferencesMeans(def, name);
    }
    forall name <- targets ensures LeadsTo(def, name, targets[name]) {
      EndMeans(def, name, targets[name]);
    }
  }

  lemma EndlessByRules(def: TypeDefinition, keys: set<string>)
    requires forall name :: name in keys <==> Endless(def, name)
    ensures forall name :: name in keys <==> IsAlias(def, name) && !exists end :: LeadsTo(def, name, end)
  {
    forall name ensures name in keys <==> IsAlias(def, name) && !exists end :: LeadsTo(def, name, end) {
      ReferencesMeans(def, name);
      forall end ensures EndsAt(def, name, end) <==> LeadsTo(def, name, end) {
        EndMeans(def, name, end);
      }
    }
  }

  lemma DirectEnd(def: TypeDefinition, name: string, target: string)
    requires def.References(name) == Some(target) && Stops(def, target)
    ensures EndsAt(def, name, target)
  {
    var path := [name, target];
    assert Chain(def, path) && path[0] == name && path[|path| - 1] == target;
  }

  lemma LaterEnd(def: TypeDefinition, name: string, target: string, end: string)
    requires def.References(name) == Some(target) && def.IsPermission(target) && EndsAt(def, target, end)
    ensures EndsAt(def, name, end)
  {
    var rest :| Chain(def, rest) && rest[0] == target && rest[|rest| - 1] == end;
    var path := [name] + rest;
    forall i | 0 <= i < |path| - 1 ensures def.References(path[i]) == Some(path[i + 1]) {
      assert i > 0 ==> path[i] == rest[i - 1] && path[i + 1] == rest[i];
    }
    assert Chain(def, path) && path[0] == name && path[|path| - 1] == end;
  }

  /** Chains from one name are determined step by step, so they end in one place at most. */
  lemma EndUnique(def: TypeDefinition, name: string, x: string, y: string)
    requires EndsAt(def, name, x) && EndsAt(def, name, y)
    ensures x == y
  {
    var p :| Chain(def, p) && p[0] == name && p[|p| - 1] == x && Stops(def, x);
    var q :| Chain(def, q) && q[0] == name && q[|q| - 1] == y && Stops(def, y);
    if |p| <= |q| {
      SameSteps(def, p, q, |p| - 1);
      if |p| < |q| {
        InnerGoesOn(def, q, |p| - 1);
      }
    } else {
      SameSteps(def, q, p, |q| - 1);
      InnerGoesOn(def, p, |q| - 1);
    }
  }

  lemma InnerGoesOn(def: TypeDefinition, path: seq<string>, i: nat)
    requires Chain(def, path) && 0 < i < |path| - 1
    ensures !Stops(def, path[i])
  {
    assert def.References(path[i]) == Some(path[i + 1]);
  }

  lemma {:induction false} SameSteps(def: TypeDefinition, p: seq<string>, q: seq<string>, i: nat)
    requires Chain(def, p) && Chain(def, q) && p[0] == q[0] && i < |p| <= |q|
    ensures p[i] == q[i]
  {
    if i > 0 {
      SameSteps(def, p, q, i - 1);
    }
  }

  /** A set of permissions each referring to another of the set. */
  ghost predicate Closed(def: TypeDefinition, names: set<string>) {
    forall name {:trigger def.References(name)} | name in names ::
      def.IsPermission(name) && def.References(name).Some? && def.References(name).value in names
  }

  lemma {:induction false} ClosedChain(def: TypeDefinition, names: set<string>, path: seq<string>, i: nat)
    requires Closed(def, names) && Chain(def, path) && path[0] in names && i < |path|
    ensures path[i] in names
  {
    if i > 0 {
      ClosedChain(def, names, path, i - 1);
    }
  }

  lemma ClosedIsEndless(def: TypeDefinition, names: set<string>, name: string)
    requires Closed(def, names) && name in names
    ensures Endless(def, name)
  {
    assert def.References(name).Some?;
    forall end | EndsAt(def, name, end) ensures false {
      ClosedHasNoEnd(def, names, name, end);
    }
  }

  lemma ClosedHasNoEnd(def: TypeDefinition, names: set<string>, name: string, end: string)
    requires Closed(def, names) && name in names
    ensures !EndsAt(def, name, end)
  {
    forall path | Chain(def, path) && path[0] == name && path[|path| - 1] == end ensures !Stops(def, end) {
      ClosedChain(def, names, path, |path| - 1);
      assert def.References(end).Some?;
    }
  }

  lemma CycleIsEndless(def: TypeDefinition, path: seq<string>)
    requires Cycle(def, path)
    ensures path[0] in def.relations && Endless(def, path[0])
  {
    CycleIsClosed(def, path);
    ClosedIsEndless(def, (set name <- path), path[0]);
  }

  lemma CycleIsClosed(def: TypeDefinition, path: seq<string>)
    requires Cycle(def, path)
    ensures Closed(def, (set name <- path))
  {
    forall name <- path
      ensures def.IsPermission(name) && def.References(name).Some? && def.References(name).value in path
    {
      var i :| 0 <= i < |path| && path[i] == name;
      if i == |path| - 1 {
        assert path[1] in path;
      } else {
        assert path[i + 1] in path;
      }
    }
  }

  lemma RingOf(def: TypeDefinition, names: set<string>, walk: seq<string>, i: nat)
    requires Closed(def, names) && i < |walk| - 1 && walk[i] == walk[|walk| - 1] && forall name <- walk :: name in names
    requires forall j | 0 <= j < |walk| - 1 :: def.References(walk[j]) == Some(walk[j + 1])
    ensures Cycle(def, walk[i..])
  {
    var path := walk[i..];
    forall j | 0 <= j < |path| - 1 ensures def.References(path[j]) == Some(path[j + 1]) {
      assert path[j] == walk[i + j];
    }
    forall j | 0 <= j < |path| ensures def.IsPermission(path[j]) {
      assert path[j] in walk;
    }
  }

  /** Walking inside a finite closed set comes back to a name already met. */
  lemma {:induction false} ClosedHasCycle(def: TypeDefinition, names: set<string>, walk: seq<string>)
    returns (cycle: seq<string>)
    requires Closed(def, names) && walk != [] && forall name <- walk :: name in names
    requires forall i | 0 <= i < |walk| - 1 :: def.References(walk[i]) == Some(walk[i + 1])
    ensures Cycle(def, cycle)
    decreases names - set name <- walk
  {
    var last := walk[|walk| - 1];
    var next := def.References(last).value;
    var longer := walk + [next];
    if next in walk {
      var i :| 0 <= i < |walk| && walk[i] == next;
      cycle := longer[i..];
      RingOf(def, names, longer, i);
    } else {
      var rest, rest' := names - (set name <- walk), names - (set name <- longer);
      assert forall name <- walk :: name in longer;
      assert rest' <= rest && next in rest && next !in rest';
      cycle := ClosedHasCycle(def, names, longer);
    }
  }

  // ---- The resolution.

  /** What holds of the names resolved so far and of those still waiting. */
  ghost predicate Resolving(def: TypeDefinition, aliases: map<string, string>, done: set<string>,
                            unresolved: map<string, string>) {
    && (forall name {:trigger def.References(name)} | name in unresolved ::
          def.References(name) == Some(unresolved[name]) && def.IsPermission(unresolved[name]))
    && (forall name <- aliases :: name in done && EndsAt(def, name, aliases[name]))
    && (forall name <- done :: name in aliases <==> def.References(name).Some?)
  }

  function Target(aliases: map<string, string>, target: string): string {
    if target in aliases then aliases[target] else target
  }

  lemma ResolveOne(def: TypeDefinition, aliases: map<string, string>, done: set<string>,
                   unresolved: map<string, string>, name: string)
    requires Resolving(def, aliases, done, unresolved) && name in unresolved && unresolved[name] in done
    ensures EndsAt(def, name, Target(aliases, unresolved[name]))
  {
    var target := unresolved[name];
    if target in aliases {
      LaterEnd(def, name, target, aliases[target]);
    } else {
      DirectEnd(def, name, target);
    }
  }

  lemma ResolvingStep(def: TypeDefinition, aliases: map<string, string>, done: set<string>,
                      unresolved: map<string, string>, name: string, end: string)
    requires Resolving(def, aliases, done, unresolved) && def.References(name).Some? && EndsAt(def, name, end)
    ensures Resolving(def, aliases[name := end], done + {name}, unresolved - {name})
  {
    var aliases', unresolved' := aliases[name := end], unresolved - {name};
    forall n <- unresolved' ensures def.References(n) == Some(unresolved'[n]) && def.IsPermission(unresolved'[n]) {
      assert n in unresolved && unresolved'[n] == unresolved[n];
    }
    forall n <- aliases' ensures n in done + {name} && EndsAt(def, n, aliases'[n]) {
      assert n != name ==> n in aliases;
    }
    forall n <- done + {name} ensures n in aliases' <==> def.References(n).Some? {
    }
  }

  lemma WaitingStep(def: TypeDefinition, aliases: map<string, string>, done: set<string>,
                    unresolved: map<string, string>, name: string)
    requires Resolving(def, aliases, done, unresolved)
    requires def.References(name).Some? && def.IsPermission(def.References(name).value)
    ensures Resolving(def, aliases, done, unresolved[name := def.References(name).value])
  {
    var unresolved' := unresolved[name := def.References(name).value];
    forall n <- unresolved' ensures def.References(n) == Some(unresolved'[n]) && def.IsPermission(unresolved'[n]) {
      assert n != name ==> n in unresolved && unresolved'[n] == unresolved[n];
    }
  }

  method Classify(def: TypeDefinition, relations: seq<string>)
    returns (aliases: map<string, string>, done: set<string>, unresolved: map<string, string>)
    requires forall name :: name in relations <==> name in def.relations
    ensures Resolving(def, aliases, done, unresolved)
    ensures done + unresolved.Keys == def.relations.Keys
  {
    aliases, done, unresolved := map[], {}, map[];
    for i := 0 to |relations|
      invariant Resolving(def, aliases, done, unresolved)
      invariant forall name :: name in done || name in unresolved <==> name in relations[..i]
    {
      var name := relations[i];
      assert relations[..i + 1] == relations[..i] + [name];
      match def.References(name)
      case None => done := done + {name};
      case Some(target) =>
        if !def.IsPermission(target) {
          DirectEnd(def, name, target);
          done, aliases := done + {name}, aliases[name := target];
        } else {
          WaitingStep(def, aliases, done, unresolved, name);
          unresolved := unresolved[name := target];
        }
    }
    assert relations[..|relations|] == relations;
  }

  /** One pass over the waiting names, in any order. A pass that resolves nothing has seen that
      every waiting name waits for another. */
  method Pass(def: TypeDefinition, aliases: map<string, string>, done: set<string>, unresolved: map<string, string>)
    returns (aliases': map<string, string>, done': set<string>, unresolved': map<string, string>)
    requires Resolving(def, aliases, done, unresolved)
    ensures Resolving(def, aliases', done', unresolved')
    ensures done' + unresolved'.Keys == done + unresolved.Keys
    ensures unresolved'.Keys < unresolved.Keys ||
            Stalled(done, unresolved, done', unresolved', {})
  {
    aliases', done', unresolved' := aliases, done, unresolved;
    var pending := unresolved.Keys;
    while pending != {}
      invariant pending <= unresolved'.Keys
      invariant Resolving(def, aliases', done', unresolved')
      invariant done' + unresolved'.Keys == done + unresolved.Keys
      invariant unresolved'.Keys < unresolved.Keys || Stalled(done, unresolved, done', unresolved', pending)
    {
      var name :| name in pending;
      pending := pending - {name};
      ghost var unresolvedBefore := unresolved';
      aliases', done', unresolved' := TryResolve(def, aliases', done', unresolved', name);
      assert unresolved'.Keys < unresolvedBefore.Keys || unresolved' == unresolvedBefore;
    }
  }

  /** Nothing was resolved, and no name visited so far waits for a resolved one. */
  ghost predicate Stalled(done: set<string>, unresolved: map<string, string>, done': set<string>,
                          unresolved': map<string, string>, pending: set<string>) {
    done' == done && unresolved' == unresolved && forall name <- unresolved | name !in pending ::
        unresolved[name] !in done
  }

  method TryResolve(def: TypeDefinition, aliases: map<string, string>, done: set<string>,
                    unresolved: map<string, string>, name: string)
    returns (aliases': map<string, string>, done': set<string>, unresolved': map<string, string>)
    requires Resolving(def, aliases, done, unresolved) && name in unresolved
    ensures Resolving(def, aliases', done', unresolved')
    ensures done' + unresolved'.Keys == done + unresolved.Keys
    ensures if unresolved[name] in done then unresolved'.Keys == unresolved.Keys - {name}
            else done' == done && unresolved' == unresolved
  {
    aliases', done', unresolved' := aliases, done, unresolved;
    var target := unresolved[name];
    if target in done {
      ResolveOne(def, aliases, done, unresolved, name);
      ResolvingStep(def, aliases, done, unresolved, name, Target(aliases, target));
      done', aliases' := done + {name}, aliases[name := Target(aliases, target)];
      unresolved' := unresolved - {name};
    }
  }

  lemma SmallerSubset(small: set<string>, large: set<string>)
    requires small <= large
    ensures |small| <= |large| && (|small| == |large| ==> small == large)
  {
    assert large == small + (large - small);
  }

  /** Resolves all aliases or finds a cycle. It fails exactly when some permissions refer to each
      other in a ring, and then names exactly those whose chain never ends; otherwise it maps
      every single-reference permission to the end of its chain. */
  method ComputePermissionAliases(def: TypeDefinition, relations: seq<string>) returns (r: Aliases)
    requires forall name :: name in relations <==> name in def.relations
    ensures r.PermissionsCycle? <==> exists path :: Cycle(def, path)
    ensures r.PermissionsCycle? ==> forall name :: name in r.keys <==> Endless(def, name)
    ensures r.Aliases? ==> MapsToEnds(def, r.targets)
    ensures DecidedByRules(def, r) && (r.PermissionsCycle? <==> exists path :: Ring(def, path))
  {
    var aliases, done, unresolved := Classify(def, relations);
    while |unresolved| > 0
      invariant Resolving(def, aliases, done, unresolved)
      invariant done + unresolved.Keys == def.relations.Keys
      decreases |unresolved|
    {
      var startingCount := |unresolved|;
      var aliases', done', unresolved' := Pass(def, aliases, done, unresolved);
      SmallerSubset(unresolved'.Keys, unresolved.Keys);
      assert |unresolved'.Keys| == |unresolved'| && |unresolved.Keys| == |unresolved|;
      if |unresolved'| == startingCount {
        Stuck(def, aliases', done', unresolved');
        r := PermissionsCycle(unresolved'.Keys);
        RulesDecide(def, r);
        return;
      }
      aliases, done, unresolved := aliases', done', unresolved';
    }
    AllResolved(def, aliases, done, unresolved);
    r := Aliases(aliases);
    RulesDecide(def, r);
  }

  lemma ResolvedIsNotEndless(def: TypeDefinition, aliases: map<string, string>, done: set<string>,
                             unresolved: map<string, string>, name: string)
    requires Resolving(def, aliases, done, unresolved) && name in done
    ensures !Endless(def, name)
  {
  }

  lemma Stuck(def: TypeDefinition, aliases: map<string, string>, done: set<string>, unresolved: map<string, string>)
    requires Resolving(def, aliases, done, unresolved) && |unresolved| > 0
    requires done + unresolved.Keys == def.relations.Keys
    requires forall name <- unresolved :: unresolved[name] !in done
    ensures exists path :: Cycle(def, path)
    ensures forall name :: name in unresolved <==> Endless(def, name)
  {
    var waiting := set name <- unresolved :: unresolved[name];
    forall target <- waiting ensures target !in done {
      var name :| name in unresolved && unresolved[name] == target;
    }
    WaitingIsClosed(def, done, unresolved, waiting);
    SomeCycle(def, unresolved, waiting);
    forall name ensures name in unresolved <==> Endless(def, name) {
      if name in unresolved {
        WaitingIsEndless(def, waiting, name, unresolved[name]);
      } else if name in done {
        ResolvedIsNotEndless(def, aliases, done, unresolved, name);
      }
    }
  }

  lemma SomeCycle(def: TypeDefinition, unresolved: map<string, string>, waiting: set<string>)
    requires Closed(def, waiting) && |unresolved| > 0 && forall name <- unresolved :: unresolved[name] in waiting
    ensures exists path :: Cycle(def, path)
  {
    assert |unresolved.Keys| > 0;
    var first :| first in unresolved.Keys;
    var cycle := ClosedHasCycle(def, waiting, [unresolved[first]]);
  }

  lemma WaitingIsClosed(def: TypeDefinition, done: set<string>, unresolved: map<string, string>, waiting: set<string>)
    requires forall name {:trigger def.References(name)} | name in unresolved ::
               def.References(name) == Some(unresolved[name]) && def.IsPermission(unresolved[name])
    requires done + unresolved.Keys == def.relations.Keys && forall name <- waiting :: name !in done
    requires waiting == set name <- unresolved :: unresolved[name]
    ensures Closed(def, waiting)
  {
    forall name <- waiting
      ensures def.IsPermission(name) && def.References(name).Some? && def.References(name).value in waiting
    {
      var before :| before in unresolved && unresolved[before] == name;
      assert def.References(before) == Some(name);
      assert name in done + unresolved.Keys;
      assert def.References(name) == Some(unresolved[name]);
    }
  }

  lemma WaitingIsEndless(def: TypeDefinition, waiting: set<string>, name: string, target: string)
    requires Closed(def, waiting) && def.References(name) == Some(target) && target in waiting
    ensures Endless(def, name)
  {
    assert def.References(target).Some?;
    forall end, path | Chain(def, path) && path[0] == name && path[|path| - 1] == end ensures !Stops(def, end) {
      if |path| > 2 {
        assert path[1..][0] == target;
        ClosedChain(def, waiting, path[1..], |path| - 2);
        assert def.References(end).Some?;
      }
    }
  }

  lemma AllResolved(def: TypeDefinition, aliases: map<string, string>, done: set<string>,
                    unresolved: map<string, string>)
    requires Resolving(def, aliases, done, unresolved) && |unresolved| == 0
    requires done + unresolved.Keys == def.relations.Keys
    ensures !exists path :: Cycle(def, path)
    ensures forall name :: name in aliases <==> def.References(name).Some?
  {
    assert |unresolved.Keys| == 0;
    assert done == def.relations.Keys;
    forall name <- done ensures !Endless(def, name) {
      ResolvedIsNotEndless(def, aliases, done, unresolved, name);
    }
    forall path ensures !Cycle(def, path) {
      if Cycle(def, path) {
        CycleIsEndless(def, path);
      }
    }
  }

  // ---- What the map is good for.

  /** Only permissions have rules. */
  ghost predicate KindsMatch(def: TypeDefinition) {
    forall name <- def.relations | def.relations[name].rewrite.Some? :: def.IsPermission(name)
  }

  /** Every single-reference name is mapped to the end of its chain. */
  ghost predicate MapsToEnds(def: TypeDefinition, targets: map<string, string>) {
    && (forall name :: name in targets <==> def.References(name).Some?)
    && (forall name <- targets :: EndsAt(def, name, targets[name]))
  }

  /** Exactly one map does that. */
  lemma EndsAreUnique(def: TypeDefinition, targets: map<string, string>, others: map<string, string>)
    requires MapsToEnds(def, targets) && MapsToEnds(def, others)
    ensures targets == others
  {
    forall name <- targets ensures name in others && targets[name] == others[name] {
      EndUnique(def, name, targets[name], others[name]);
    }
    assert forall name :: name in targets <==> name in others;
  }

  /** Refers to a name that is marked as a relation and yet refers to another. */
  ghost predicate StopsShort(def: TypeDefinition, name: string) {
    && def.References(name).Some?
    && var target := def.References(name).value;
       def.References(target).Some? && !def.IsPermission(target)
  }

  /** No target is itself an alias exactly when no name stops short, as when the kinds match. */
  lemma TargetsAreFinal(def: TypeDefinition, targets: map<string, string>)
    requires MapsToEnds(def, targets)
    ensures (forall name <- targets :: targets[name] !in targets) <==>
            (forall name <- targets :: !StopsShort(def, name))
    ensures KindsMatch(def) ==> forall name <- targets :: targets[name] !in targets
  {
    forall name <- targets
      ensures targets[name] in targets ==> exists last <- targets :: StopsShort(def, last)
      ensures StopsShort(def, name) ==> targets[name] in targets
      ensures KindsMatch(def) ==> !StopsShort(def, name)
    {
      LastOfChain(def, name, targets[name]);
      if StopsShort(def, name) {
        DirectEnd(def, name, def.References(name).value);
        EndUnique(def, name, targets[name], def.References(name).value);
      }
    }
  }

  lemma LastOfChain(def: TypeDefinition, name: string, end: string)
    requires EndsAt(def, name, end)
    ensures exists last :: def.References(last) == Some(end) && (def.References(end).Some? ==> StopsShort(def, last))
  {
    var path :| Chain(def, path) && path[0] == name && path[|path| - 1] == end && Stops(def, end);
    assert def.References(path[|path| - 2]) == Some(end);
  }

  // ---- What is received: definitions that were built with kinds and validated.

  predicate HasTypes(r: Relation) {
    r.allowed.Some? && r.allowed.value != []
  }

  /** Validation refuses types beside a rule in which no subjects are listed directly, and so beside the
      rule of an alias. */
  ghost predicate Validated(def: TypeDefinition) {
    forall name <- def.relations | IsAlias(def, name) :: !HasTypes(def.relations[name])
  }

  /** A permission is what has a rule and no types. */
  ghost predicate KindsAsBuilt(def: TypeDefinition) {
    forall name <- def.relations ::
        def.IsPermission(name) <==> def.relations[name].rewrite.Some? && !HasTypes(def.relations[name])
  }

  /** In such a definition no target is itself an alias. */
  lemma BuiltTargetsAreFinal(def: TypeDefinition, targets: map<string, string>)
    requires Validated(def) && KindsAsBuilt(def) && MapsToEnds(def, targets)
    ensures forall name <- targets :: targets[name] !in targets
  {
    forall name | def.References(name).Some? ensures def.IsPermission(name) {
      ReferencesMeans(def, name);
    }
    TargetsAreFinal(def, targets);
  }

  /** A definition made by other means: nothing says that `viewer` is a permission. */
  ghost function UnmarkedDefinition(): TypeDefinition {
    TypeDefinition(map[
      "editor" := Relation(None, Some([AllowedRelation("user", ELLIPSIS)]), None),
      "viewer" := Relation(Some(UnionOf([ComputedUserset("editor")])), None, None),
      "view" := Relation(Some(UnionOf([ComputedUserset("viewer")])), None, None)
    ], {"view"})
  }

  /** It is valid, and `view` resolves to `viewer`, although that only names `editor`. */
  lemma AliasTargetWitness()
    ensures var targets := map["viewer" := "editor", "view" := "viewer"];
            && Validated(UnmarkedDefinition()) && !KindsAsBuilt(UnmarkedDefinition())
            && MapsToEnds(UnmarkedDefinition(), targets) && targets["view"] in targets
  {
    DirectEnd(UnmarkedDefinition(), "viewer", "editor");
    DirectEnd(UnmarkedDefinition(), "view", "viewer");
  }

  /** Storing each target beside its permission gives a definition whose aliases are resolved, as
      checks rely on. */
  lemma StoredAliasesResolved(def: TypeDefinition, targets: map<string, string>)
    requires MapsToEnds(def, targets)
    ensures AliasesResolved(map name <- def.relations ::
        def.relations[name].(aliasing := if name in targets then Some(targets[name]) else None))
  {
    var stored := map name <- def.relations ::
        def.relations[name].(aliasing := if name in targets then Some(targets[name]) else None);
    forall name <- stored | stored[name].aliasing.Some?
      ensures exists path ::
              AliasChain(stored, path) && path[0] == name && path[|path| - 1] == stored[name].aliasing.value
    {
      var path :| Chain(def, path) && path[0] == name && path[|path| - 1] == targets[name];
      forall i | 0 <= i < |path| - 1
        ensures path[i] in stored && stored[path[i]].rewrite == Some(UnionOf([ComputedUserset(path[i + 1])]))
      {
        assert def.References(path[i]) == Some(path[i + 1]);
        var children := stored[path[i]].rewrite.value.children;
        assert children == [children[0]];
      }
      assert AliasChain(stored, path);
    }
  }
}
