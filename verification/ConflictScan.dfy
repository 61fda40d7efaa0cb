/**
 * The configuration-time search for locations where the built-in gzip filter and this module
 * would both be on (module/src/registration/gzip.rs).
 *
 * Addresses are numbers, so that the location graph may be shared or cyclic.
 */
module ConflictScan {
  import opened Wrappers

  /** A loc-conf array: this module's configuration in it, and what the gzip flag says, if either is there. */
  datatype LocConf = NoArray | Array(config: Option<nat>, gzip: Option<bool>)

  datatype Entry = Entry(exact: Option<nat>, inclusive: Option<nat>)

  datatype Location = Location(locConf: LocConf, limitExcept: LocConf, queue: seq<Entry>, regex: seq<nat>)

  /** A server entry may be null, or have no HTTP context. */
  datatype Server = NullServer | NoContext | Server(locConf: LocConf, root: Option<nat>, named: seq<nat>)

  /** The merged configuration; `enabled` holds the module configurations that have compression on. */
  datatype Tree = Tree(locations: map<nat, Location>, enabled: set<nat>)

  // ----- the graph -----

  function Targets(address: Option<nat>): seq<nat> {
    if address.Some? then [address.value] else []
  }

  function QueueTargets(queue: seq<Entry>): seq<nat> {
    if queue == [] then []
    else
      var last := queue[|queue| - 1];
      QueueTargets(queue[..|queue| - 1]) + (Targets(last.exact) + Targets(last.inclusive))
  }

  function Children(location: Location): seq<nat> {
    QueueTargets(location.queue) + location.regex
  }

  /** Every address is that of a location. */
  predicate AllLive(tree: Tree, addresses: seq<nat>) {
    forall address :: address in addresses ==> address in tree.locations
  }

  predicate Live(tree: Tree) {
    forall x :: x in tree.locations ==> AllLive(tree, Children(tree.locations[x]))
  }

  predicate IsChild(tree: Tree, x: nat, y: nat) {
    x in tree.locations && y in Children(tree.locations[x])
  }

  lemma {:induction false} QueueTargetsAre(queue: seq<Entry>, y: nat)
    ensures y in QueueTargets(queue) <==>
              exists entry :: entry in queue && (entry.exact == Some(y) || entry.inclusive == Some(y))
  {
    if queue != [] {
      var before, last := queue[..|queue| - 1], queue[|queue| - 1];
      QueueTargetsAre(before, y);
      assert queue == before + [last];
      assert last in queue;
      assert forall entry :: entry in before ==> entry in queue;
    }
  }

  /** A location leads to those its queue's entries hold, either way, and to those of its regex array. */
  lemma ChildrenAre(tree: Tree, x: nat, y: nat)
    requires x in tree.locations
    ensures IsChild(tree, x, y) <==>
              || (exists entry :: entry in tree.locations[x].queue
                                  && (entry.exact == Some(y) || entry.inclusive == Some(y)))
              || y in tree.locations[x].regex
  {
    QueueTargetsAre(tree.locations[x].queue, y);
  }

  ghost predicate IsPath(tree: Tree, path: seq<nat>) {
    && path != []
    && forall i :: 0 <= i < |path| - 1 ==> IsChild(tree, path[i], path[i + 1])
  }

  ghost predicate Connects(tree: Tree, path: seq<nat>, x: nat, y: nat) {
    IsPath(tree, path) && path[0] == x && path[|path| - 1] == y
  }

  ghost predicate Reaches(tree: Tree, x: nat, y: nat) {
    exists path :: Connects(tree, path, x, y)
  }

  ghost predicate ReachedFrom(tree: Tree, roots: seq<nat>, y: nat) {
    exists x :: x in roots && Reaches(tree, x, y)
  }

  /** A search from `roots` that had been everywhere in `was` has now been everywhere in `now`:
      what is new is reached from the roots, and leads nowhere it has not been. */
  ghost predicate Explored(tree: Tree, roots: seq<nat>, was: set<nat>, now: set<nat>) {
    && was <= now
    && (forall x :: x in roots ==> x in now)
    && forall x :: x in now && x !in was ==>
         && x in tree.locations
         && (forall y :: IsChild(tree, x, y) ==> y in now)
         && ReachedFrom(tree, roots, x)
  }

  lemma ExploredTogether(tree: Tree, a: seq<nat>, b: seq<nat>, first: set<nat>, second: set<nat>, third: set<nat>)
    requires Explored(tree, a, first, second) && Explored(tree, b, second, third)
    ensures Explored(tree, a + b, first, third)
  {
    forall x | x in third && x !in first ensures ReachedFrom(tree, a + b, x) {
      if x in second {
        var root :| root in a && Reaches(tree, root, x);
        assert root in a + b;
      } else {
        var root :| root in b && Reaches(tree, root, x);
        assert root in a + b;
      }
    }
  }

  lemma ExploredNode(tree: Tree, x: nat, was: set<nat>, now: set<nat>)
    requires x in tree.locations && x !in was
    requires Explored(tree, Children(tree.locations[x]), was + {x}, now)
    ensures Explored(tree, [x], was, now)
  {
    assert IsPath(tree, [x]) && Connects(tree, [x], x, x);
    forall y | y in now && y !in was ensures ReachedFrom(tree, [x], y) {
      assert x in [x];
      if y != x {
        var child :| child in Children(tree.locations[x]) && Reaches(tree, child, y);
        var path :| Connects(tree, path, child, y);
        assert Connects(tree, [x] + path, x, y) by {
          var longer := [x] + path;
          forall i | 0 <= i < |longer| - 1 ensures IsChild(tree, longer[i], longer[i + 1]) {
            if i > 0 { assert longer[i] == path[i - 1] && longer[i + 1] == path[i]; }
          }
        }
      }
    }
  }

  lemma {:induction false} PathStaysInside(tree: Tree, inside: set<nat>, path: seq<nat>)
    requires IsPath(tree, path) && path[0] in inside
    requires forall x, y :: x in inside && IsChild(tree, x, y) ==> y in inside
    ensures path[|path| - 1] in inside
    decreases |path|
  {
    if |path| > 1 {
      assert IsChild(tree, path[0], path[1]);
      var rest := path[1..];
      forall i | 0 <= i < |rest| - 1 ensures IsChild(tree, rest[i], rest[i + 1]) {
        assert IsChild(tree, path[i + 1], path[i + 2]);
      }
      PathStaysInside(tree, inside, rest);
    }
  }

  /** A search from nothing ends having been exactly where its roots lead. */
  lemma ExploredIsReached(tree: Tree, roots: seq<nat>, now: set<nat>, x: nat)
    requires Explored(tree, roots, {}, now)
    ensures x in now <==> ReachedFrom(tree, roots, x)
  {
    if ReachedFrom(tree, roots, x) {
      var root :| root in roots && Reaches(tree, root, x);
      var path :| Connects(tree, path, root, x);
      PathStaysInside(tree, now, path);
    }
  }

  // ----- what is inspected -----

  function ConfigOf(conf: LocConf): Option<nat> {
    if conf.Array? then conf.config else None
  }

  /** disabled_reason: compression on, and the gzip flag on beside it. */
  predicate Conflicts(tree: Tree, conf: LocConf) {
    conf.Array? && conf.config.Some? && conf.config.value in tree.enabled && conf.gzip == Some(true)
  }

  /** The first of the arrays that holds `config`. */
  function FirstWith(confs: seq<LocConf>, config: nat): Option<LocConf> {
    if confs == [] then None
    else
      var before, last := FirstWith(confs[..|confs| - 1], config), confs[|confs| - 1];
      if before.Some? then before else if ConfigOf(last) == Some(config) then Some(last) else None
  }

  lemma FirstWithSnoc(confs: seq<LocConf>, conf: LocConf, config: nat)
    ensures var before := FirstWith(confs, config);
            FirstWith(confs + [conf], config) ==
              if before.Some? then before else if ConfigOf(conf) == Some(config) then Some(conf) else None
  {
    assert (confs + [conf])[..|confs|] == confs;
  }

  lemma {:induction false} FirstWithIsOne(confs: seq<LocConf>, config: nat)
    ensures var first := FirstWith(confs, config);
            && (first.Some? ==> first.value in confs && ConfigOf(first.value) == Some(config))
            && (first.None? ==> forall conf :: conf in confs ==> ConfigOf(conf) != Some(config))
  {
    if confs != [] {
      var before, last := confs[..|confs| - 1], confs[|confs| - 1];
      FirstWithIsOne(before, config);
      assert confs == before + [last];
    }
  }

  predicate Holds(conf: LocConf, config: nat) {
    ConfigOf(conf) == Some(config)
  }

  /** The verdict on a configuration: what the first array that holds it says. */
  predicate Warned(tree: Tree, confs: seq<LocConf>, config: nat) {
    FirstWith(confs, config).Some? && Conflicts(tree, FirstWith(confs, config).value)
  }

  ghost predicate SomeConflicts(tree: Tree, confs: seq<LocConf>, config: nat) {
    exists conf :: conf in confs && Holds(conf, config) && Conflicts(tree, conf)
  }

  ghost predicate HoldersAgree(tree: Tree, confs: seq<LocConf>, config: nat) {
    forall a, b :: a in confs && b in confs && Holds(a, config) && Holds(b, config) ==>
      Conflicts(tree, a) == Conflicts(tree, b)
  }

  /** A warning is never unfounded; and one is given whenever some array conflicts if and only if the first
      array that holds the configuration conflicts, or none does. */
  lemma WarnedIff(tree: Tree, confs: seq<LocConf>, config: nat)
    ensures Warned(tree, confs, config) ==> SomeConflicts(tree, confs, config)
    ensures (Warned(tree, confs, config) <==> SomeConflicts(tree, confs, config)) <==>
              || !SomeConflicts(tree, confs, config)
              || forall conf :: FirstWith(confs, config) == Some(conf) ==> Conflicts(tree, conf)
  {
    FirstWithIsOne(confs, config);
  }

  /** Where the arrays that share a configuration agree, a configuration is warned about exactly when some
      array makes it a conflict. */
  lemma AgreeingArrays(tree: Tree, confs: seq<LocConf>, config: nat)
    requires HoldersAgree(tree, confs, config)
    ensures Warned(tree, confs, config) <==> SomeConflicts(tree, confs, config)
  {
    FirstWithIsOne(confs, config);
  }

  lemma {:induction false} FirstWithCons(conf: LocConf, rest: seq<LocConf>, config: nat)
    ensures FirstWith([conf] + rest, config) == if Holds(conf, config) then Some(conf) else FirstWith(rest, config)
    decreases |rest|
  {
    var confs := [conf] + rest;
    if rest == [] {
      assert confs == [] + [conf];
      FirstWithSnoc([], conf, config);
    } else {
      var before, last := rest[..|rest| - 1], rest[|rest| - 1];
      FirstWithCons(conf, before, config);
      assert confs == ([conf] + before) + [last] && rest == before + [last];
      FirstWithSnoc([conf] + before, last, config);
      FirstWithSnoc(before, last, config);
    }
  }

  /** Whichever of two disagreeing arrays is met first decides, whatever follows. */
  lemma FirstArrayDecides(tree: Tree, a: LocConf, b: LocConf, rest: seq<LocConf>, config: nat)
    requires Holds(a, config) && Holds(b, config) && Conflicts(tree, a) != Conflicts(tree, b)
    ensures Warned(tree, [a, b] + rest, config) == Conflicts(tree, a)
    ensures Warned(tree, [b, a] + rest, config) == Conflicts(tree, b)
  {
    assert [a, b] + rest == [a] + ([b] + rest) && [b, a] + rest == [b] + ([a] + rest);
    FirstWithCons(a, [b] + rest, config);
    FirstWithCons(b, [a] + rest, config);
  }

  /** The order in which the arrays are met makes no difference to the verdict. */
  ghost predicate OrderFree(tree: Tree, confs: seq<LocConf>, config: nat) {
    forall other: seq<LocConf> :: multiset(other) == multiset(confs) ==>
      Warned(tree, other, config) == Warned(tree, confs, config)
  }

  /** The order makes no difference if and only if all arrays that hold the configuration agree. */
  lemma OrderFreeIff(tree: Tree, confs: seq<LocConf>, config: nat)
    ensures OrderFree(tree, confs, config) <==> HoldersAgree(tree, confs, config)
  {
    if HoldersAgree(tree, confs, config) {
      forall other: seq<LocConf> | multiset(other) == multiset(confs)
        ensures Warned(tree, other, config) == Warned(tree, confs, config)
      {
        SameHolders(other, confs);
        AgreeingArrays(tree, confs, config);
        AgreeingArrays(tree, other, config);
      }
    } else {
      var a, b :| a in confs && b in confs && Holds(a, config) && Holds(b, config)
                  && Conflicts(tree, a) != Conflicts(tree, b);
      var rest := Without(confs, a, b);
      FirstArrayDecides(tree, a, b, rest, config);
      hide Warned;
      assert multiset([a, b] + rest) == multiset(confs) && multiset([b, a] + rest) == multiset(confs);
    }
  }

  lemma SameHolders(a: seq<LocConf>, b: seq<LocConf>)
    requires multiset(a) == multiset(b)
    ensures forall conf :: conf in a <==> conf in b
  {
    assert forall conf :: conf in a <==> conf in multiset(a);
    assert forall conf :: conf in b <==> conf in multiset(b);
  }

  lemma Without(confs: seq<LocConf>, a: LocConf, b: LocConf) returns (rest: seq<LocConf>)
    requires a in confs && b in confs && a != b
    ensures multiset(rest) + multiset{a, b} == multiset(confs)
  {
    var some := WithoutOne(confs, a);
    assert multiset(some)[b] == multiset(confs)[b] > 0;
    rest := WithoutOne(some, b);
    assert multiset{a} + multiset{b} == multiset{a, b};
  }

  lemma WithoutOne(confs: seq<LocConf>, a: LocConf) returns (rest: seq<LocConf>)
    requires a in confs
    ensures multiset(rest) + multiset{a} == multiset(confs)
  {
    var i :| 0 <= i < |confs| && confs[i] == a;
    rest := confs[..i] + confs[i + 1..];
    SplitAt(confs, i);
  }

  ghost predicate NoneTwice(configs: seq<nat>) {
    forall i, j :: 0 <= i < j < |configs| ==> configs[i] != configs[j]
  }

  /** The arrays of the new locations, two for each, and no other. */
  ghost predicate Traced(tree: Tree, was: set<nat>, now: set<nat>, part: seq<LocConf>) {
    && was <= now && (forall x :: x in now && x !in was ==> x in tree.locations)
    && |part| == 2 * |now - was|
    && (forall conf :: conf in part <==> ArrayOfOne(tree, now - was, conf))
    && forall conf :: multiset(part)[conf] == Uses(tree, now - was, conf)
  }

  ghost function OwnUsers(tree: Tree, visited: set<nat>, conf: LocConf): set<nat> {
    set x | x in visited && x in tree.locations && tree.locations[x].locConf == conf
  }

  ghost function LimitUsers(tree: Tree, visited: set<nat>, conf: LocConf): set<nat> {
    set x | x in visited && x in tree.locations && tree.locations[x].limitExcept == conf
  }

  /** How often these locations have `conf` for an array of theirs. */
  ghost function Uses(tree: Tree, visited: set<nat>, conf: LocConf): nat {
    |OwnUsers(tree, visited, conf)| + |LimitUsers(tree, visited, conf)|
  }

  lemma UsesTogether(tree: Tree, a: set<nat>, b: set<nat>, conf: LocConf)
    requires a !! b
    ensures Uses(tree, a + b, conf) == Uses(tree, a, conf) + Uses(tree, b, conf)
  {
    assert OwnUsers(tree, a + b, conf) == OwnUsers(tree, a, conf) + OwnUsers(tree, b, conf);
    assert LimitUsers(tree, a + b, conf) == LimitUsers(tree, a, conf) + LimitUsers(tree, b, conf);
  }

  lemma UsesOfOne(tree: Tree, x: nat, conf: LocConf)
    requires x in tree.locations
    ensures Uses(tree, {x}, conf) == multiset([tree.locations[x].locConf, tree.locations[x].limitExcept])[conf]
  {
    var a, b := tree.locations[x].locConf, tree.locations[x].limitExcept;
    assert OwnUsers(tree, {x}, conf) == if a == conf then {x} else {};
    assert LimitUsers(tree, {x}, conf) == if b == conf then {x} else {};
    assert [a, b] == [a] + [b];
    assert multiset([a, b]) == multiset{a} + multiset{b};
  }

  ghost predicate ArrayOfOne(tree: Tree, visited: set<nat>, conf: LocConf) {
    exists x :: x in visited && x in tree.locations
      && (conf == tree.locations[x].locConf || conf == tree.locations[x].limitExcept)
  }

  lemma TracedTogether(tree: Tree, first: set<nat>, second: set<nat>, third: set<nat>, a: seq<LocConf>, b: seq<LocConf>)
    requires Traced(tree, first, second, a) && Traced(tree, second, third, b)
    ensures Traced(tree, first, third, a + b)
  {
    assert third - first == (second - first) + (third - second);
    forall conf ensures conf in a + b <==> ArrayOfOne(tree, third - first, conf) {
      assert conf in a + b <==> conf in a || conf in b;
    }
    forall conf ensures multiset(a + b)[conf] == Uses(tree, third - first, conf) {
      UsesTogether(tree, second - first, third - second, conf);
    }
  }

  lemma TracedNode(tree: Tree, x: nat, was: set<nat>, now: set<nat>, part: seq<LocConf>)
    requires x in tree.locations && x !in was
    requires Traced(tree, was + {x}, now, part)
    ensures Traced(tree, was, now, [tree.locations[x].locConf, tree.locations[x].limitExcept] + part)
  {
    var own := [tree.locations[x].locConf, tree.locations[x].limitExcept];
    assert own[0] in own && own[1] in own;
    assert (was + {x}) - was == {x};
    assert Traced(tree, was, was + {x}, own) by {
      forall conf ensures conf in own <==> ArrayOfOne(tree, {x}, conf) {}
      forall conf ensures multiset(own)[conf] == Uses(tree, {x}, conf) { UsesOfOne(tree, x, conf); }
    }
    TracedTogether(tree, was, was + {x}, now, own, part);
  }

  // ----- the scan -----

  /** What a part of the scan has done: where it has been, and what it has looked at. */
  ghost predicate Scanned(tree: Tree, roots: seq<nat>, was: set<nat>, now: set<nat>, before: seq<LocConf>,
                          after: seq<LocConf>) {
    && Explored(tree, roots, was, now)
    && before <= after
    && Traced(tree, was, now, after[|before|..])
  }

  lemma NothingScanned(tree: Tree, roots: seq<nat>, seen: set<nat>, trace: seq<LocConf>)
    requires forall x :: x in roots ==> x in seen
    ensures Scanned(tree, roots, seen, seen, trace, trace)
  {
    assert trace[|trace|..] == [] && seen - seen == {};
  }

  lemma ScannedTogether(tree: Tree, a: seq<nat>, b: seq<nat>, s0: set<nat>, s1: set<nat>, s2: set<nat>,
                        t0: seq<LocConf>, t1: seq<LocConf>, t2: seq<LocConf>)
    requires Scanned(tree, a, s0, s1, t0, t1) && Scanned(tree, b, s1, s2, t1, t2)
    ensures Scanned(tree, a + b, s0, s2, t0, t2)
  {
    hide Explored, Traced;
    ExploredTogether(tree, a, b, s0, s1, s2);
    TracedTogether(tree, s0, s1, s2, t1[|t0|..], t2[|t1|..]);
    SliceTogether(t0, t1, t2);
  }

  lemma SliceTogether<T>(t0: seq<T>, t1: seq<T>, t2: seq<T>)
    requires t0 <= t1 <= t2
    ensures t2[|t0|..] == t1[|t0|..] + t2[|t1|..]
  {
  }

  lemma ScannedNode(tree: Tree, x: nat, was: set<nat>, now: set<nat>, before: seq<LocConf>, after: seq<LocConf>)
    requires x in tree.locations && x !in was
    requires var own := [tree.locations[x].locConf] + [tree.locations[x].limitExcept];
             Scanned(tree, Children(tree.locations[x]), was + {x}, now, before + own, after)
    ensures Scanned(tree, [x], was, now, before, after)
  {
    ExploredNode(tree, x, was, now);
    var own := [tree.locations[x].locConf] + [tree.locations[x].limitExcept];
    TracedNode(tree, x, was, now, after[|before + own|..]);
    assert after[|before|..] == own + after[|before + own|..];
  }

  lemma ScannedPart(tree: Tree, roots: seq<nat>, was: set<nat>, now: set<nat>, before: seq<LocConf>,
                    after: seq<LocConf>, other: seq<LocConf>)
    requires Scanned(tree, roots, was, now, before, after)
    ensures Scanned(tree, roots, was, now, other, other + after[|before|..])
  {
    var part := after[|before|..];
    assert (other + part)[|other|..] == part;
  }

  lemma ChildrenAreLive(tree: Tree, x: nat)
    requires Live(tree) && x in tree.locations
    ensures AllLive(tree, QueueTargets(tree.locations[x].queue)) && AllLive(tree, tree.locations[x].regex)
  {
    var here := tree.locations[x];
    assert AllLive(tree, Children(here));
    forall y | y in QueueTargets(here.queue) || y in here.regex ensures y in tree.locations {
      assert y in Children(here);
    }
  }

  lemma QueueSnoc(queue: seq<Entry>, entry: Entry)
    ensures QueueTargets(queue + [entry]) == QueueTargets(queue) + (Targets(entry.exact) + Targets(entry.inclusive))
  {
    assert (queue + [entry])[..|queue|] == queue;
  }

  lemma {:induction false} EntriesAreTargets(queue: seq<Entry>, i: nat)
    requires i < |queue|
    ensures forall x :: x in Targets(queue[i].exact) + Targets(queue[i].inclusive) ==> x in QueueTargets(queue)
  {
    if i < |queue| - 1 {
      EntriesAreTargets(queue[..|queue| - 1], i);
    }
  }

  lemma QueueGoesOn(tree: Tree, queue: seq<Entry>, i: nat)
    requires i < |queue| && AllLive(tree, QueueTargets(queue))
    ensures AllLive(tree, Targets(queue[i].exact)) && AllLive(tree, Targets(queue[i].inclusive))
    ensures QueueTargets(queue[..i + 1])
         == QueueTargets(queue[..i]) + (Targets(queue[i].exact) + Targets(queue[i].inclusive))
  {
    hide QueueTargets;
    EntriesAreTargets(queue, i);
    forall x | x in Targets(queue[i].exact) || x in Targets(queue[i].inclusive) ensures x in tree.locations {
      assert x in Targets(queue[i].exact) + Targets(queue[i].inclusive);
    }
    QueueSnoc(queue[..i], queue[i]);
    assert queue[..i + 1] == queue[..i] + [queue[i]];
  }

  // ----- the servers -----

  function RootsOf(server: Server): seq<nat> {
    if server.Server? then Targets(server.root) + server.named else []
  }

  /** Where the scan starts: each server's root and its named locations. */
  function Roots(servers: seq<Server>): seq<nat> {
    if servers == [] then [] else Roots(servers[..|servers| - 1]) + RootsOf(servers[|servers| - 1])
  }

  /** The servers' own arrays. */
  function ServerConfs(servers: seq<Server>): seq<LocConf> {
    if servers == [] then []
    else
      var last := servers[|servers| - 1];
      ServerConfs(servers[..|servers| - 1]) + (if last.Server? then [last.locConf] else [])
  }

  predicate ServersLive(tree: Tree, servers: seq<Server>) {
    forall server :: server in servers && server.Server? ==>
      AllLive(tree, Targets(server.root)) && AllLive(tree, server.named)
  }

  lemma ServersGoOn(tree: Tree, servers: seq<Server>, i: nat)
    requires i < |servers| && ServersLive(tree, servers)
    ensures Roots(servers[..i + 1]) == Roots(servers[..i]) + RootsOf(servers[i])
    ensures ServerConfs(servers[..i + 1])
         == ServerConfs(servers[..i]) + (if servers[i].Server? then [servers[i].locConf] else [])
    ensures servers[..i + 1] == servers[..i] + [servers[i]]
    ensures servers[i].Server? ==> AllLive(tree, Targets(servers[i].root)) && AllLive(tree, servers[i].named)
  {
    hide Roots, ServerConfs, RootsOf;
    ServersSnoc(servers[..i], servers[i]);
    assert servers[..i + 1] == servers[..i] + [servers[i]];
    assert servers[i] in servers;
  }

  lemma ServersSnoc(servers: seq<Server>, server: Server)
    ensures Roots(servers + [server]) == Roots(servers) + RootsOf(server)
    ensures ServerConfs(servers + [server]) == ServerConfs(servers) + (if server.Server? then [server.locConf] else [])
  {
    assert (servers + [server])[..|servers|] == servers;
  }

  lemma ScanStarts(tree: Tree, servers: seq<Server>)
    ensures Scanned(tree, Roots(servers[..0]), {}, {}, [], [])
    ensures ServerConfs(servers[..0]) == []
  {
    assert servers[..0] == [];
    NothingScanned(tree, [], {}, []);
  }

  lemma OneMoreServer(tree: Tree, servers: seq<Server>, i: nat, s1: set<nat>, s2: set<nat>, t1: seq<LocConf>,
                      t2: seq<LocConf>, parts: seq<LocConf>)
    requires i < |servers| && servers[i].Server? && ServersLive(tree, servers)
    requires Scanned(tree, Roots(servers[..i]), {}, s1, [], parts)
    requires multiset(t1) == multiset(ServerConfs(servers[..i])) + multiset(parts)
    requires t1 + [servers[i].locConf] <= t2
    requires Scanned(tree, RootsOf(servers[i]), s1, s2, t1 + [servers[i].locConf], t2)
    ensures var parts' := parts + t2[|t1| + 1..];
            && Scanned(tree, Roots(servers[..i + 1]), {}, s2, [], parts')
            && multiset(t2) == multiset(ServerConfs(servers[..i + 1])) + multiset(parts')
  {
    hide Scanned, Roots, ServerConfs;
    var own, part := [servers[i].locConf], t2[|t1| + 1..];
    ServersGoOn(tree, servers, i);
    ScannedPart(tree, RootsOf(servers[i]), s1, s2, t1 + own, t2, parts);
    ScannedTogether(tree, Roots(servers[..i]), RootsOf(servers[i]), {}, s1, s2, [], parts, parts + part);
    assert t2 == t1 + own + part;
  }

  lemma ScannedAll(tree: Tree, servers: seq<Server>, seen: set<nat>, trace: seq<LocConf>, parts: seq<LocConf>)
    requires Scanned(tree, Roots(servers), {}, seen, [], parts)
    requires multiset(trace) == multiset(ServerConfs(servers)) + multiset(parts)
    ensures forall x :: x in seen <==> ReachedFrom(tree, Roots(servers), x)
    ensures forall conf :: conf in trace <==> conf in ServerConfs(servers) || ArrayOfOne(tree, seen, conf)
    ensures |trace| == |ServerConfs(servers)| + 2 * |seen|
    ensures forall conf :: multiset(trace)[conf] == multiset(ServerConfs(servers))[conf] + Uses(tree, seen, conf)
  {
    hide ReachedFrom, ServerConfs, Roots, ArrayOfOne;
    assert parts[0..] == parts && seen - {} == seen;
    assert Traced(tree, {}, seen, parts);
    hide Explored;
    forall x ensures x in seen <==> ReachedFrom(tree, Roots(servers), x) {
      ExploredIsReached(tree, Roots(servers), seen, x);
    }
    forall conf ensures conf in trace <==> conf in ServerConfs(servers) || conf in parts {
      assert conf in trace <==> conf in multiset(trace);
    }
    assert |trace| == |multiset(trace)|;
  }

  class Scan {
    const tree: Tree
    var seenLocations: set<nat>
    var seenConfigs: set<nat>
    /** gzip_conflict_expected, for the configurations it has been written to. */
    var expected: map<nat, bool>
    /** The configurations warned about, in order. */
    var warnings: seq<nat>
    /** Every array looked at, in order. */
    ghost var trace: seq<LocConf>

    constructor (tree: Tree)
      ensures this.tree == tree && seenLocations == {} && trace == [] && Recorded()
      ensures warnings == [] && expected == map[]
    {
      this.tree := tree;
      seenLocations, seenConfigs, expected, warnings, trace := {}, {}, map[], [], [];
    }

    /** Each configuration in the trace is recorded once, as the first array that holds it says,
        with one warning if that is a conflict. */
    ghost predicate Recorded()
      reads this`seenConfigs, this`expected, this`warnings, this`trace
    {
      && NoneTwice(warnings)
      && forall config: nat {:trigger FirstWith(trace, config)} ::
           var first := FirstWith(trace, config);
           && (config in seenConfigs <==> first.Some?)
           && (config in expected <==> first.Some?)
           && (first.Some? ==> expected[config] == Conflicts(tree, first.value))
           && (config in warnings <==> first.Some? && Conflicts(tree, first.value))
    }

    /** Where the arrays looked at agree on a configuration, the scan warns about it exactly when compression is
        on in it and one of them has the gzip flag on beside it, in whatever order it met them. */
    lemma WarnsOfConflicts(config: nat)
      requires Recorded() && HoldersAgree(tree, trace, config)
      ensures config in warnings <==>
                && config in tree.enabled
                && exists conf :: conf in trace && ConfigOf(conf) == Some(config) && conf.gzip == Some(true)
    {
      AgreeingArrays(tree, trace, config);
    }

    /** The locations not yet seen: what every descent leaves fewer of. */
    ghost function Unseen(): set<nat>
      reads this
    {
      tree.locations.Keys - seenLocations
    }

    /** inspect_loc_conf. */
    method Inspect(conf: LocConf)
      requires Recorded()
      modifies this`seenConfigs, this`expected, this`warnings, this`trace
      ensures Recorded() && trace == old(trace) + [conf]
    {
      trace := trace + [conf];
      forall config: nat ensures FirstWith(trace, config) ==
        (if FirstWith(old(trace), config).Some? then FirstWith(old(trace), config)
         else if ConfigOf(conf) == Some(config) then Some(conf) else None)
      {
        FirstWithSnoc(old(trace), conf, config);
      }
      if ConfigOf(conf).Some? {
        var config := ConfigOf(conf).value;
        if config !in seenConfigs {
          seenConfigs := seenConfigs + {config};
          var conflict := config in tree.enabled && conf.gzip == Some(true);
          expected := expected[config := conflict];
          if conflict {
            warnings := warnings + [config];
          }
        }
      }
    }

    /** scan_location_tree. */
    method ScanTree(location: Option<nat>)
      requires Recorded() && Live(tree) && AllLive(tree, Targets(location))
      modifies this
      ensures Recorded() && old(seenLocations) <= seenLocations
      ensures Scanned(tree, Targets(location), old(seenLocations), seenLocations, old(trace), trace)
      decreases |Unseen()|, 0
    {
      hide Recorded, Scanned, Live, QueueTargets;
      if location.None? || location.value in seenLocations {
        NothingScanned(tree, Targets(location), seenLocations, trace);
        return;
      }
      var x := location.value;
      ghost var was := seenLocations;
      seenLocations := seenLocations + {x};
      var here := tree.locations[x];
      Inspect(here.locConf);
      Inspect(here.limitExcept);
      ghost var own := trace;
      assert own == old(trace) + ([here.locConf] + [here.limitExcept]);
      assert Unseen() == old(Unseen()) - {x};
      ChildrenAreLive(tree, x);
      ScanQueue(here.queue);
      ghost var afterQueue, between := seenLocations, trace;
      SubsetSize(Unseen(), old(Unseen()) - {x});
      ScanAll(here.regex);
      ScannedTogether(tree, QueueTargets(here.queue), here.regex, was + {x}, afterQueue, seenLocations,
                      own, between, trace);
      ScannedNode(tree, x, was, seenLocations, old(trace), trace);
    }

    /** scan_location_queue. */
    method ScanQueue(queue: seq<Entry>)
      requires Recorded() && Live(tree) && AllLive(tree, QueueTargets(queue))
      modifies this
      ensures Recorded() && old(seenLocations) <= seenLocations
      ensures Scanned(tree, QueueTargets(queue), old(seenLocations), seenLocations, old(trace), trace)
      decreases |Unseen()|, 1
    {
      hide Recorded, Scanned, Live;
      NothingScanned(tree, [], seenLocations, trace);
      for i := 0 to |queue|
        invariant Recorded() && old(seenLocations) <= seenLocations
        invariant Scanned(tree, QueueTargets(queue[..i]), old(seenLocations), seenLocations, old(trace), trace)
      {
        var entry := queue[i];
        QueueGoesOn(tree, queue, i);
        ghost var s1, t1 := seenLocations, trace;
        SubsetSize(Unseen(), old(Unseen()));
        ScanTree(entry.exact);
        ghost var s2, t2 := seenLocations, trace;
        SubsetSize(Unseen(), old(Unseen()));
        ScanTree(entry.inclusive);
        ScannedTogether(tree, Targets(entry.exact), Targets(entry.inclusive), s1, s2, seenLocations, t1, t2, trace);
        ScannedTogether(tree, QueueTargets(queue[..i]), Targets(entry.exact) + Targets(entry.inclusive),
                        old(seenLocations), s1, seenLocations, old(trace), t1, trace);
      }
      assert queue[..|queue|] == queue;
    }

    /** scan_null_terminated_locations. */
    method ScanAll(locations: seq<nat>)
      requires Recorded() && Live(tree) && AllLive(tree, locations)
      modifies this
      ensures Recorded() && old(seenLocations) <= seenLocations
      ensures Scanned(tree, locations, old(seenLocations), seenLocations, old(trace), trace)
      decreases |Unseen()|, 1
    {
      hide Recorded, Scanned, Live;
      NothingScanned(tree, [], seenLocations, trace);
      for i := 0 to |locations|
        invariant Recorded() && old(seenLocations) <= seenLocations
        invariant Scanned(tree, locations[..i], old(seenLocations), seenLocations, old(trace), trace)
      {
        ghost var s1, t1 := seenLocations, trace;
        SubsetSize(Unseen(), old(Unseen()));
        ScanTree(Some(locations[i]));
        ScannedTogether(tree, locations[..i], Targets(Some(locations[i])), old(seenLocations), s1, seenLocations,
                        old(trace), t1, trace);
        assert locations[..i + 1] == locations[..i] + Targets(Some(locations[i]));
      }
      assert locations[..|locations|] == locations;
    }

    /** One server: its own array, its root, its named locations. */
    method ScanServer(locConf: LocConf, root: Option<nat>, named: seq<nat>)
      requires Recorded() && Live(tree) && AllLive(tree, Targets(root)) && AllLive(tree, named)
      modifies this
      ensures Recorded() && old(seenLocations) <= seenLocations
      ensures Scanned(tree, Targets(root) + named, old(seenLocations), seenLocations, old(trace) + [locConf], trace)
      ensures old(trace) + [locConf] <= trace
    {
      Inspect(locConf);
      ghost var s1, t1 := seenLocations, trace;
      ScanTree(root);
      ghost var s2, t2 := seenLocations, trace;
      ScanAll(named);
      ScannedTogether(tree, Targets(root), named, s1, s2, seenLocations, t1, t2, trace);
    }

    /** discover_and_warn, for a build with the gzip flag to find. It fails at a server without a context. */
    method Discover(servers: seq<Server>) returns (ok: bool)
      requires Recorded() && Live(tree) && ServersLive(tree, servers)
      requires seenLocations == {} && trace == []
      modifies this
      ensures Recorded()
      ensures ok <==> NoContext !in servers
      ensures ok ==> forall x :: x in seenLocations <==> ReachedFrom(tree, Roots(servers), x)
      ensures ok ==> forall conf :: conf in trace <==>
                conf in ServerConfs(servers) || ArrayOfOne(tree, seenLocations, conf)
      ensures ok ==> |trace| == |ServerConfs(servers)| + 2 * |seenLocations|
      ensures ok ==> forall conf ::
                multiset(trace)[conf] == multiset(ServerConfs(servers))[conf] + Uses(tree, seenLocations, conf)
    {
      hide Recorded, Scanned, Live, ServersLive, ReachedFrom, Roots, ServerConfs, ArrayOfOne;
      ghost var parts: seq<LocConf> := [];
      ScanStarts(tree, servers);
      for i := 0 to |servers|
        invariant Recorded() && NoContext !in servers[..i]
        invariant Scanned(tree, Roots(servers[..i]), {}, seenLocations, [], parts)
        invariant multiset(trace) == multiset(ServerConfs(servers[..i])) + multiset(parts)
      {
        ServersGoOn(tree, servers, i);
        ghost var s1, t1 := seenLocations, trace;
        match servers[i] {
          case NullServer =>
            assert Roots(servers[..i]) + [] == Roots(servers[..i]);
          case NoContext =>
            assert servers[i] in servers;
            return false;
          case Server(locConf, root, named) =>
            ScanServer(locConf, root, named);
            OneMoreServer(tree, servers, i, s1, seenLocations, t1, trace, parts);
            parts := parts + trace[|t1| + 1..];
        }
      }
      assert servers[..|servers|] == servers;
      ScannedAll(tree, servers, seenLocations, trace, parts);
      return true;
    }
  }
}
