/**
 The route table of a domain. Resources form a tree below the domain; the table is built
 by a recursive walk down the tree that climbs back up from every resource to find the
 path of its ancestors.
 */
module RouteTree {
  import opened Messages
  import opened RouteScanner
  import opened RouteGrammar
  import opened RouteRegex
  import opened RouteMatching

  /** A resource with its path, the routes it brings itself, and the resources registered below it. */
  datatype Tree = Node(id: nat, path: string, routes: set<nat>, children: seq<Tree>)

  /** What the components know upwards: the parent of every resource, and its path. */
  datatype Site = Site(parent: map<nat, nat>, path: map<nat, string>)

  const DOMAIN: nat := 0

  datatype Entry = Own(route: nat) | Pattern(resource: nat, expression: string)

  // ----- paths

  function LStrip(s: string): string {
    if s != "" && s[0] == '/' then LStrip(s[1..]) else s
  }

  /** `'/'.join(segments)` */
  function JoinSlash(segments: seq<string>): string {
    if segments == [] then "" else if |segments| == 1 then segments[0]
    else segments[0] + "/" + JoinSlash(segments[1..])
  }

  function Stripped(chain: seq<string>): seq<string> {
    seq(|chain|, i requires 0 <= i < |chain| => LStrip(chain[i]))
  }

  /** Every path of the chain after a slash. */
  function Slashed(chain: seq<string>): string {
    if chain == [] then "" else "/" + LStrip(chain[0]) + Slashed(chain[1..])
  }

  /** The path of a resource, from the paths of its ancestors below the domain and its own. */
  function PathOf(chain: seq<string>): string {
    if |chain| == 1 then chain[0] else Slashed(chain)
  }

  lemma {:induction false} JoinIsSlashed(chain: seq<string>)
    ensures JoinSlash([""] + Stripped(chain)) == Slashed(chain)
  {
    if chain == [] {
    } else {
      JoinIsSlashed(chain[1..]);
      var first := LStrip(chain[0]);
      var later := Stripped(chain[1..]);
      assert Stripped(chain) == [first] + later;
      assert ([""] + Stripped(chain))[1..] == [first] + later;
      assert "" + "/" + JoinSlash([first] + later) == "/" + JoinSlash([first] + later);
      if later == [] {
        assert chain[1..] == [] && [first] + later == [first];
        assert "/" + first + "" == "/" + first;
      } else {
        assert ([first] + later)[1..] == later && ([""] + later)[1..] == later;
        assert "" + "/" + JoinSlash(later) == "/" + JoinSlash(later) == Slashed(chain[1..]);
        Assoc(first, "/", JoinSlash(later));
        Assoc("/", first, "/" + JoinSlash(later));
      }
    }
  }

  /** A resource directly below the domain keeps its path as it is; that is the path of the rule for nested ones exactly when it starts with one slash. */
  lemma TopLevelPath(path: string)
    ensures PathOf([path]) == Slashed([path]) <==> path != "" && path[0] == '/' && (|path| == 1 || path[1] != '/')
  {
    assert Slashed([path]) == "/" + LStrip(path) + "" == "/" + LStrip(path);
    LStripStops(path);
    if path != "" && path[0] == '/' {
      LStripStops(path[1..]);
      assert LStrip(path) == LStrip(path[1..]);
      assert path == "/" + path[1..];
      if |path| > 1 && path[1] == '/' {
        assert |LStrip(path[1..])| < |path[1..]|;
      }
    }
  }

  lemma {:induction false} LStripStops(s: string)
    ensures |LStrip(s)| <= |s|
    ensures LStrip(s) == "" || LStrip(s)[0] != '/'
    ensures s == "" || s[0] != '/' ==> LStrip(s) == s
    ensures s != "" && s[0] == '/' ==> |LStrip(s)| < |s|
  {
    if s == "" || s[0] != '/' {
    } else {
      LStripStops(s[1..]);
    }
  }

  // ----- climbing up

  /** Climbing from any resource ends: at the domain, or at a component that is its own parent. */
  ghost predicate Grounded(site: Site, depth: map<nat, nat>) {
    && DOMAIN !in site.parent
    && site.path.Keys == site.parent.Keys <= depth.Keys
    && (forall r :: r in site.parent ==>
          var p := site.parent[r];
          p == DOMAIN || p == r || (p in site.parent && depth[p] < depth[r]))
  }

  /** The ancestors of a resource whose paths count, from the top down. */
  ghost function Ancestors(site: Site, depth: map<nat, nat>, r: nat): seq<nat>
    requires Grounded(site, depth) && r in site.parent
    ensures forall a :: a in Ancestors(site, depth, r) ==> a in site.parent
    decreases depth[r]
  {
    var p := site.parent[r];
    if p == DOMAIN || p == r || site.parent[p] == p then [] else Ancestors(site, depth, p) + [p]
  }

  ghost function Paths(site: Site, ids: seq<nat>): seq<string>
    requires forall r :: r in ids ==> r in site.path
  {
    seq(|ids|, i requires 0 <= i < |ids| => site.path[ids[i]])
  }

  /** `_build_tree_path` */
  method BuildTreePath(site: Site, ghost depth: map<nat, nat>, r: nat) returns (path: string)
    requires Grounded(site, depth) && r in site.parent
    ensures var chain := Paths(site, Ancestors(site, depth, r)) + [site.path[r]];
            path == if site.parent[r] == DOMAIN then site.path[r] else Slashed(chain)
  {
    var parent := site.parent[r];
    if parent == DOMAIN {
      return site.path[r];
    }
    ghost var whole := Ancestors(site, depth, r);
    ghost var below := [];
    var segments := [];
    ghost var at := r;
    while parent != DOMAIN
      invariant at in site.parent && parent == site.parent[at]
      invariant whole == Ancestors(site, depth, at) + below
      invariant forall a :: a in below ==> a in site.parent
      invariant segments == Stripped(Paths(site, below))
      decreases depth[at]
    {
      if parent == site.parent[parent] {
        break;
      }
      segments := [LStrip(site.path[parent])] + segments;
      below := [parent] + below;
      at := parent;
      parent := site.parent[parent];
    }
    assert whole == below;
    ghost var chain := Paths(site, whole) + [site.path[r]];
    segments := [""] + segments;
    segments := segments + [LStrip(site.path[r])];
    assert segments == [""] + Stripped(chain);
    JoinIsSlashed(chain);
    path := JoinSlash(segments);
  }

  // ----- walking down

  /** `_all_childs` */
  function AllChilds(forest: seq<Tree>): seq<Tree> {
    if forest == [] then []
    else AllChilds(forest[0].children) + [forest[0]] + AllChilds(forest[1..])
  }

  /** The resources of a forest with the paths from the top down to each. */
  function Located(forest: seq<Tree>, above: seq<string>): set<(nat, seq<string>)>
    decreases forest
  {
    if forest == [] then {}
    else
      var chain := above + [forest[0].path];
      Located(forest[0].children, chain) + {(forest[0].id, chain)} + Located(forest[1..], above)
  }

  function Ids(forest: seq<Tree>): multiset<nat> {
    if forest == [] then multiset{} else Ids(forest[0].children) + multiset{forest[0].id} + Ids(forest[1..])
  }

  function IdsOf(nodes: seq<Tree>): multiset<nat> {
    if nodes == [] then multiset{} else multiset{nodes[0].id} + IdsOf(nodes[1..])
  }

  lemma {:induction false} IdsOfAppend(a: seq<Tree>, b: seq<Tree>)
    ensures IdsOf(a + b) == IdsOf(a) + IdsOf(b)
  {
    if a == [] {
      assert a + b == b;
    } else {
      var whole := a + b;
      assert whole[0] == a[0] && whole[1..] == a[1..] + b;
      IdsOfAppend(a[1..], b);
      assert IdsOf(whole) == multiset{a[0].id} + IdsOf(a[1..] + b);
    }
  }

  /** The walk visits every resource as often as it is in the tree: once, if every resource is registered once. */
  lemma {:induction false} WalkVisitsEachOnce(forest: seq<Tree>)
    ensures IdsOf(AllChilds(forest)) == Ids(forest)
  {
    if forest == [] {
    } else {
      WalkVisitsEachOnce(forest[0].children);
      WalkVisitsEachOnce(forest[1..]);
      IdsOfAppend(AllChilds(forest[0].children) + [forest[0]], AllChilds(forest[1..]));
      IdsOfAppend(AllChilds(forest[0].children), [forest[0]]);
    }
  }

  /** The registrations downwards and upwards agree. */
  predicate Registered(site: Site, forest: seq<Tree>, owner: nat) {
    forall t :: t in forest ==>
      && t.id != DOMAIN && t.id != owner
      && t.id in site.parent && site.parent[t.id] == owner
      && t.id in site.path && site.path[t.id] == t.path
      && Registered(site, t.children, t.id)
  }

  /**
   The climb agrees with the walk: for every resource reached from `owner` downwards, the
   ancestors found upwards are those it was reached through.
   */
  lemma {:induction false} ClimbMatchesWalk(site: Site, depth: map<nat, nat>, forest: seq<Tree>, owner: nat, above: seq<string>, at: (nat, seq<string>))
    requires Grounded(site, depth) && Registered(site, forest, owner)
    requires if owner == DOMAIN then above == []
             else owner in site.parent && site.parent[owner] != owner && above == Paths(site, Ancestors(site, depth, owner)) + [site.path[owner]]
    requires at in Located(forest, above)
    ensures at.0 in site.parent
    ensures at.1 == Paths(site, Ancestors(site, depth, at.0)) + [site.path[at.0]]
    ensures site.parent[at.0] == DOMAIN <==> |at.1| == 1
    decreases forest
  {
    var t := forest[0];
    var chain := above + [t.path];
    assert t in forest;
    if owner != DOMAIN {
      assert Ancestors(site, depth, t.id) == Ancestors(site, depth, owner) + [owner];
      assert Paths(site, Ancestors(site, depth, t.id)) == above;
    }
    if at in Located(t.children, chain) {
      ClimbMatchesWalk(site, depth, t.children, t.id, chain, at);
    } else if at in Located(forest[1..], above) {
      assert forall x :: x in forest[1..] ==> x in forest;
      ClimbMatchesWalk(site, depth, forest[1..], owner, above, at);
    }
  }

  lemma {:induction false} WalkIsLocated(forest: seq<Tree>, above: seq<string>, t: Tree)
    requires t in AllChilds(forest)
    ensures exists chain :: (t.id, chain) in Located(forest, above)
    decreases forest
  {
    var down := above + [forest[0].path];
    if t in AllChilds(forest[0].children) {
      WalkIsLocated(forest[0].children, down, t);
      var chain :| (t.id, chain) in Located(forest[0].children, down);
      assert (t.id, chain) in Located(forest, above);
    } else if t == forest[0] {
      assert (t.id, down) in Located(forest, above);
    } else {
      WalkIsLocated(forest[1..], above, t);
      var chain :| (t.id, chain) in Located(forest[1..], above);
      assert (t.id, chain) in Located(forest, above);
    }
  }

  lemma {:induction false} LocatedIsWalked(forest: seq<Tree>, above: seq<string>, at: (nat, seq<string>))
    requires at in Located(forest, above)
    ensures exists t :: t in AllChilds(forest) && t.id == at.0
    decreases forest
  {
    var down := above + [forest[0].path];
    if at in Located(forest[0].children, down) {
      LocatedIsWalked(forest[0].children, down, at);
    } else if at == (forest[0].id, down) {
      assert forest[0] in AllChilds(forest);
    } else {
      LocatedIsWalked(forest[1..], above, at);
    }
  }

  // ----- the table

  ghost function ClimbedPath(site: Site, depth: map<nat, nat>, r: nat): string
    requires Grounded(site, depth) && r in site.parent
  {
    if site.parent[r] == DOMAIN then site.path[r]
    else Slashed(Paths(site, Ancestors(site, depth, r)) + [site.path[r]])
  }

  /** The entries that resource `t` adds to the table. */
  ghost predicate Adds(site: Site, depth: map<nat, nat>, t: Tree, entry: Entry)
    requires Grounded(site, depth) && t.id in site.parent
  {
    match entry
    case Own(route) => route in t.routes
    case Pattern(r, expression) => r == t.id && RegexPath(ClimbedPath(site, depth, r)) == Ok(expression)
  }

  ghost predicate InTable(site: Site, depth: map<nat, nat>, forest: seq<Tree>, entry: Entry)
    requires Grounded(site, depth)
  {
    exists t :: t in AllChilds(forest) && t.id in site.parent && Adds(site, depth, t, entry)
  }

  /** Every resource of the walk knows its parent. */
  lemma WalkIsKnown(site: Site, depth: map<nat, nat>, forest: seq<Tree>)
    requires Grounded(site, depth) && Registered(site, forest, DOMAIN)
    ensures forall t :: t in AllChilds(forest) ==> t.id in site.parent
  {
    forall t | t in AllChilds(forest) ensures t.id in site.parent {
      WalkIsLocated(forest, [], t);
      var chain :| (t.id, chain) in Located(forest, []);
      ClimbMatchesWalk(site, depth, forest, DOMAIN, [], (t.id, chain));
    }
  }

  /** What one resource adds to the table, if its path can be compiled. */
  method EntriesOf(site: Site, ghost depth: map<nat, nat>, t: Tree) returns (compiled: bool, added: set<Entry>)
    requires Grounded(site, depth) && t.id in site.parent
    ensures compiled <==> RegexPath(ClimbedPath(site, depth, t.id)).Ok?
    ensures compiled ==> forall entry :: entry in added <==> Adds(site, depth, t, entry)
  {
    var path := BuildTreePath(site, depth, t.id);
    added := set r | r in t.routes :: Own(r);
    var expression := RegexPath(path);
    compiled := expression.Ok?;
    if compiled {
      added := added + {Pattern(t.id, expression.value)};
    }
  }

  class RegexPathRouter {
    var routes: set<Entry>

    constructor ()
      ensures routes == {}
    {
      routes := {};
    }

    /** `_on_register_routes`; if a path cannot be compiled the old table stays. */
    method OnRegisterRoutes(site: Site, ghost depth: map<nat, nat>, forest: seq<Tree>) returns (ok: bool)
      requires Grounded(site, depth) && Registered(site, forest, DOMAIN)
      modifies this
      ensures ok ==> forall entry :: entry in routes <==> InTable(site, depth, forest, entry)
      ensures ok <==> forall t :: t in AllChilds(forest) && t.id in site.parent ==> RegexPath(ClimbedPath(site, depth, t.id)).Ok?
      ensures !ok ==> routes == old(routes)
    {
      WalkIsKnown(site, depth, forest);
      var table: set<Entry> := {};
      var resources := AllChilds(forest);
      for i := 0 to |resources|
        invariant forall entry :: entry in table <==> exists j :: 0 <= j < i && Adds(site, depth, resources[j], entry)
        invariant forall j :: 0 <= j < i ==> RegexPath(ClimbedPath(site, depth, resources[j].id)).Ok?
        invariant routes == old(routes)
      {
        var compiled, added := EntriesOf(site, depth, resources[i]);
        if !compiled {
          return false;
        }
        ghost var before := table;
        table := table + added;
        forall entry ensures entry in table <==> exists j :: 0 <= j < i + 1 && Adds(site, depth, resources[j], entry) {
          assert entry in table <==> entry in before || Adds(site, depth, resources[i], entry);
        }
      }
      routes := table;
      return true;
    }
  }

  /** `match` on one entry. What a resource's own routes match is the resource's affair. */
  function MatchEntry(lang: Language, own: (nat, string) -> Option<Groups>, entry: Entry, path: string): Option<Groups> {
    match entry
    case Own(route) => own(route, path)
    case Pattern(_, expression) => MatchText(lang, expression, path)
  }

  /** Whether an entry matches the path and its resource identifies itself with the request, given what was captured. */
  predicate Serves(lang: Language, own: (nat, string) -> Option<Groups>, identifies: (Entry, Groups) -> bool, entry: Entry, path: string) {
    var groups := MatchEntry(lang, own, entry, path);
    groups.Some? && identifies(entry, groups.value)
  }

  /** Of some entries, in whatever order the set yields them, the last one that serves, and its captures. */
  ghost predicate Found(lang: Language, own: (nat, string) -> Option<Groups>, identifies: (Entry, Groups) -> bool,
                        order: seq<Entry>, path: string, found: Option<(Entry, Groups)>) {
    && (found == None <==> forall i :: 0 <= i < |order| ==> !Serves(lang, own, identifies, order[i], path))
    && (found.Some? ==>
          && MatchEntry(lang, own, found.value.0, path) == Some(found.value.1)
          && exists i :: 0 <= i < |order| && found.value.0 == order[i] && Serves(lang, own, identifies, order[i], path)
                         && forall j :: i < j < |order| ==> !Serves(lang, own, identifies, order[j], path))
  }

  lemma FoundNext(lang: Language, own: (nat, string) -> Option<Groups>, identifies: (Entry, Groups) -> bool,
                  tried: seq<Entry>, entry: Entry, path: string, found: Option<(Entry, Groups)>)
    requires Found(lang, own, identifies, tried, path, found)
    ensures Serves(lang, own, identifies, entry, path) ==>
              Found(lang, own, identifies, tried + [entry], path, Some((entry, MatchEntry(lang, own, entry, path).value)))
    ensures !Serves(lang, own, identifies, entry, path) ==> Found(lang, own, identifies, tried + [entry], path, found)
  {
    var more := tried + [entry];
    assert more[|tried|] == entry;
    forall i | 0 <= i < |tried| ensures more[i] == tried[i] {
    }
  }

  /** `_find_resource`: the last entry that matches the path and whose resource identifies itself with the request. */
  method FindResource(lang: Language, own: (nat, string) -> Option<Groups>, identifies: (Entry, Groups) -> bool,
                      order: seq<Entry>, path: string) returns (found: Option<(Entry, Groups)>)
    ensures Found(lang, own, identifies, order, path, found)
  {
    found := None;
    for n := 0 to |order|
      invariant Found(lang, own, identifies, order[..n], path, found)
    {
      FoundNext(lang, own, identifies, order[..n], order[n], path, found);
      assert order[..n + 1] == order[..n] + [order[n]];
      var groups := MatchEntry(lang, own, order[n], path);
      if groups.Some? && identifies(order[n], groups.value) {
        found := Some((order[n], groups.value));
      }
    }
    assert order[..|order|] == order;
  }

  /**
   The table is the tree: an expression is in it exactly when it is that of the path from
   the domain down to a resource, with the resource it is for.
   */
  lemma TableEqualsTree(site: Site, depth: map<nat, nat>, forest: seq<Tree>, r: nat, expression: string)
    requires Grounded(site, depth) && Registered(site, forest, DOMAIN)
    ensures InTable(site, depth, forest, Pattern(r, expression)) <==>
            exists chain :: (r, chain) in Located(forest, []) && RegexPath(PathOf(chain)) == Ok(expression)
  {
    var entry := Pattern(r, expression);
    forall t | t in AllChilds(forest) && t.id in site.parent && Adds(site, depth, t, entry)
      ensures exists chain :: (r, chain) in Located(forest, []) && RegexPath(PathOf(chain)) == Ok(expression)
    {
      WalkIsLocated(forest, [], t);
      var chain :| (t.id, chain) in Located(forest, []);
      ClimbMatchesWalk(site, depth, forest, DOMAIN, [], (t.id, chain));
      assert PathOf(chain) == ClimbedPath(site, depth, t.id);
    }
    forall chain | (r, chain) in Located(forest, []) && RegexPath(PathOf(chain)) == Ok(expression)
      ensures InTable(site, depth, forest, entry)
    {
      LocatedIsWalked(forest, [], (r, chain));
      var t :| t in AllChilds(forest) && t.id == r;
      ClimbMatchesWalk(site, depth, forest, DOMAIN, [], (t.id, chain));
      assert PathOf(chain) == ClimbedPath(site, depth, t.id);
      assert Adds(site, depth, t, entry);
    }
  }

  // ----- what the entry of a nested resource matches

  /** The routes of a chain of resources, all of them well-formed and without a name in common. */
  predicate ChainOk(chain: seq<seq<Part>>) {
    chain == [] || (WellFormed(chain[0]) && Names(chain[0]) !! ChainNames(chain[1..]) && ChainOk(chain[1..]))
  }

  function ChainNames(chain: seq<seq<Part>>): set<string> {
    if chain == [] then {} else Names(chain[0]) + ChainNames(chain[1..])
  }

  function InSequence(chain: seq<seq<Part>>): string {
    if chain == [] then "" else Escape("/") + CompileAll(chain[0]) + InSequence(chain[1..])
  }

  /** The parts of the route of a nested resource. */
  function Whole(chain: seq<seq<Part>>): seq<Part> {
    if chain == [] then [] else Under([], chain[0]) + Whole(chain[1..])
  }

  lemma {:induction false} WholeIsWellFormed(chain: seq<seq<Part>>)
    requires ChainOk(chain)
    ensures WellFormed(Whole(chain)) && Names(Whole(chain)) == ChainNames(chain)
    ensures chain != [] ==> Whole(chain)[0] == Lit("/")
  {
    if chain == [] {
    } else {
      WholeIsWellFormed(chain[1..]);
      UnderWellFormed([], chain[0]);
      var a := Under([], chain[0]);
      var b := Whole(chain[1..]);
      NamesAppend(a, b);
      DistinctAppend(a, b);
      forall x | x in a + b ensures PartOk(x) {
        assert x in a || x in b;
      }
      forall i | 0 <= i < |a + b| - 1 && (a + b)[i].Bare?
        ensures (a + b)[i + 1].Lit? && (a + b)[i + 1].text != "" && (a + b)[i + 1].text[0] in DONE_CHARS
      {
        if i < |a| - 1 {
          assert (a + b)[i] == a[i] && (a + b)[i + 1] == a[i + 1];
        } else if i >= |a| {
          assert (a + b)[i] == b[i - |a|] && (a + b)[i + 1] == b[i - |a| + 1];
        }
      }
    }
  }

  /** The paths of a chain of resources, with or without slashes in front, and the routes they print. */
  predicate Prints(paths: seq<string>, chain: seq<seq<Part>>) {
    |paths| == |chain| && forall i :: 0 <= i < |chain| ==> LStrip(paths[i]) == PrintAll(chain[i])
  }

  lemma {:induction false} WholeText(paths: seq<string>, chain: seq<seq<Part>>)
    requires Prints(paths, chain)
    ensures PrintAll(Whole(chain)) == Slashed(paths)
    ensures CompileAll(Whole(chain)) == InSequence(chain)
  {
    if chain == [] {
    } else {
      WholeText(paths[1..], chain[1..]);
      UnderText([], chain[0]);
      PrintAppend(Under([], chain[0]), Whole(chain[1..]));
      CompileAppend(Under([], chain[0]), Whole(chain[1..]));
      assert "" + "/" == "/" && "" + Escape("/") == Escape("/");
    }
  }

  /**
   The expression of a nested resource is that of its ancestors and its own, each after a
   slash: the resource matches below its ancestors what it would match alone.
   */
  lemma NestedResourceExpression(paths: seq<string>, chain: seq<seq<Part>>)
    requires |chain| >= 2 && ChainOk(chain) && Prints(paths, chain)
    ensures RegexPath(PathOf(paths)) == Ok("^" + InSequence(chain) + "$")
  {
    WholeIsWellFormed(chain);
    WholeText(paths, chain);
    RouteRoundTrip(Whole(chain));
  }

  lemma {:induction false} WholeIsReadable(chain: seq<seq<Part>>)
    requires forall ps :: ps in chain ==> RouteReadable(ps)
    ensures RouteReadable(Whole(chain))
  {
    if chain == [] {
    } else {
      assert RouteReadable(chain[0]) && forall ps :: ps in chain[1..] ==> ps in chain;
      WholeIsReadable(chain[1..]);
      forall p | p in Whole(chain) ensures PartReadable(p) {
        assert p in chain[0] || p == Lit("/") || p in Whole(chain[1..]);
      }
    }
  }

  /**
   The entry that the table has for a nested resource matches a path if and only if the
   path is the routes of its ancestors and its own with admissible values in them, each
   after a slash; and it captures such values.
   */
  lemma NestedResourceMatches(lang: Language, paths: seq<string>, chain: seq<seq<Part>>, path: string)
    requires |chain| >= 2 && ChainOk(chain) && Prints(paths, chain)
    requires forall ps :: ps in chain ==> RouteReadable(ps)
    ensures RegexPath(PathOf(paths)).Ok?
    ensures var result := MatchText(lang, RegexPath(PathOf(paths)).value, path);
            && (result.Some? <==> exists groups :: Admissible(lang, Whole(chain), groups) && Fill(Whole(chain), groups) == path)
            && (result.Some? ==> Admissible(lang, Whole(chain), result.value) && Fill(Whole(chain), result.value) == path)
  {
    WholeIsWellFormed(chain);
    WholeIsReadable(chain);
    WholeText(paths, chain);
    MatchedExactly(lang, Whole(chain), path);
  }

  // ----- what is found

  /** The parts of the route of a resource with these paths above it and its own. */
  ghost predicate IsRoute(ps: seq<Part>, paths: seq<string>) {
    WellFormed(ps) && RouteReadable(ps) && PrintAll(ps) == PathOf(paths)
  }

  /** For a nested resource these are the parts of its ancestors' routes and its own. */
  lemma NestedIsRoute(paths: seq<string>, chain: seq<seq<Part>>)
    requires |chain| >= 2 && ChainOk(chain) && Prints(paths, chain)
    requires forall ps :: ps in chain ==> RouteReadable(ps)
    ensures IsRoute(Whole(chain), paths)
  {
    WholeIsWellFormed(chain);
    WholeIsReadable(chain);
    WholeText(paths, chain);
  }

  /** Every resource of the tree has a route that can be compiled and read. */
  ghost predicate AllRoutes(forest: seq<Tree>) {
    forall r, paths :: (r, paths) in Located(forest, []) ==> exists ps :: IsRoute(ps, paths)
  }

  /** The entry of resource `r` whose path is found at `paths`. */
  function EntryAt(r: nat, paths: seq<string>): Entry {
    Pattern(r, match RegexPath(PathOf(paths)) case Ok(expression) => expression case Err(_) => "")
  }

  /** The path is the route of a resource of the tree with values in it, and the resource identifies itself. */
  ghost predicate InTree(lang: Language, identifies: (Entry, Groups) -> bool, forest: seq<Tree>, path: string,
                         entry: Entry, groups: Groups) {
    exists r, paths, ps ::
      && (r, paths) in Located(forest, []) && IsRoute(ps, paths) && entry == EntryAt(r, paths)
      && Admissible(lang, ps, groups) && Fill(ps, groups) == path && identifies(entry, groups)
  }

  /** A route that some resource of the tree brings itself takes the path, and its resource identifies itself. */
  ghost predicate InOwn(own: (nat, string) -> Option<Groups>, identifies: (Entry, Groups) -> bool, forest: seq<Tree>, path: string,
                        entry: Entry, groups: Groups) {
    exists t, route ::
      t in AllChilds(forest) && route in t.routes && entry == Own(route)
      && own(route, path) == Some(groups) && identifies(entry, groups)
  }

  lemma ServesInOwn(site: Site, depth: map<nat, nat>, forest: seq<Tree>, lang: Language, own: (nat, string) -> Option<Groups>,
                    identifies: (Entry, Groups) -> bool, path: string, route: nat)
    requires Grounded(site, depth) && Registered(site, forest, DOMAIN)
    ensures InTable(site, depth, forest, Own(route)) && Serves(lang, own, identifies, Own(route), path) <==>
            own(route, path).Some? && InOwn(own, identifies, forest, path, Own(route), own(route, path).value)
  {
    WalkIsKnown(site, depth, forest);
    if t :| t in AllChilds(forest) && route in t.routes {
      assert Adds(site, depth, t, Own(route));
    }
  }

  /** The entry of a resource takes a path exactly if the path is its route with values in it. */
  lemma EntryTakes(lang: Language, own: (nat, string) -> Option<Groups>, r: nat, paths: seq<string>, ps: seq<Part>, path: string)
    requires IsRoute(ps, paths)
    ensures RegexPath(PathOf(paths)).Ok?
    ensures var result := MatchEntry(lang, own, EntryAt(r, paths), path);
            && (result.Some? <==> exists groups :: Admissible(lang, ps, groups) && Fill(ps, groups) == path)
            && (result.Some? ==> Admissible(lang, ps, result.value) && Fill(ps, result.value) == path)
  {
    MatchedExactly(lang, ps, path);
  }

  lemma ServesInTree(site: Site, depth: map<nat, nat>, forest: seq<Tree>, lang: Language, own: (nat, string) -> Option<Groups>,
                     identifies: (Entry, Groups) -> bool, path: string, r: nat, expression: string)
    requires Grounded(site, depth) && Registered(site, forest, DOMAIN) && AllRoutes(forest)
    requires var entry := Pattern(r, expression);
             InTable(site, depth, forest, entry) && Serves(lang, own, identifies, entry, path)
    ensures var entry := Pattern(r, expression);
            InTree(lang, identifies, forest, path, entry, MatchEntry(lang, own, entry, path).value)
  {
    TableEqualsTree(site, depth, forest, r, expression);
    var paths :| (r, paths) in Located(forest, []) && RegexPath(PathOf(paths)) == Ok(expression);
    var ps :| IsRoute(ps, paths);
    EntryTakes(lang, own, r, paths, ps, path);
    assert EntryAt(r, paths) == Pattern(r, expression);
  }

  /** A resource of the tree whose route takes the path is in the table, and serves if it identifies itself whatever was captured. */
  lemma TreeServes(site: Site, depth: map<nat, nat>, forest: seq<Tree>, lang: Language, own: (nat, string) -> Option<Groups>,
                   identifies: (Entry, Groups) -> bool, path: string, entry: Entry, groups: Groups)
    requires Grounded(site, depth) && Registered(site, forest, DOMAIN)
    requires InTree(lang, identifies, forest, path, entry, groups)
    requires forall g :: identifies(entry, g) == identifies(entry, groups)
    ensures InTable(site, depth, forest, entry) && Serves(lang, own, identifies, entry, path)
  {
    var r, paths, ps :|
      (r, paths) in Located(forest, []) && IsRoute(ps, paths) && entry == EntryAt(r, paths)
      && Admissible(lang, ps, groups) && Fill(ps, groups) == path && identifies(entry, groups);
    EntryTakes(lang, own, r, paths, ps, path);
    TableEqualsTree(site, depth, forest, r, entry.expression);
    assert RegexPath(PathOf(paths)) == Ok(entry.expression);
  }

  /** A resource of the tree whose route takes the path is in the table; with the captures of its expression it serves. */
  lemma TakenServes(site: Site, depth: map<nat, nat>, forest: seq<Tree>, lang: Language, own: (nat, string) -> Option<Groups>,
                    identifies: (Entry, Groups) -> bool, path: string, entry: Entry, groups: Groups)
    requires Grounded(site, depth) && Registered(site, forest, DOMAIN)
    requires InTree(lang, identifies, forest, path, entry, groups)
    requires entry.Pattern? && MatchText(lang, entry.expression, path) == Some(groups)
    ensures InTable(site, depth, forest, entry) && Serves(lang, own, identifies, entry, path)
  {
    var r, paths, ps :|
      (r, paths) in Located(forest, []) && IsRoute(ps, paths) && entry == EntryAt(r, paths)
      && Admissible(lang, ps, groups) && Fill(ps, groups) == path && identifies(entry, groups);
    EntryTakes(lang, own, r, paths, ps, path);
    TableEqualsTree(site, depth, forest, r, entry.expression);
    assert RegexPath(PathOf(paths)) == Ok(entry.expression);
  }

  /**
   What `_find_resource` finds in a table as `_on_register_routes` leaves it, in any order:
   an entry, if and only if the path is the route of a resource of the tree with values in
   it, or an own route takes it, and the resource identifies itself with what is captured.
   The captures of what it finds are such values. For a resource that identifies itself
   whatever the captures are, any values will do.
   */
  lemma FoundInTree(site: Site, depth: map<nat, nat>, forest: seq<Tree>, lang: Language, own: (nat, string) -> Option<Groups>,
                    identifies: (Entry, Groups) -> bool, order: seq<Entry>, path: string, found: Option<(Entry, Groups)>)
    requires Grounded(site, depth) && Registered(site, forest, DOMAIN) && AllRoutes(forest)
    requires forall entry :: entry in order <==> InTable(site, depth, forest, entry)
    requires Found(lang, own, identifies, order, path, found)
    ensures found.Some? ==>
              || InTree(lang, identifies, forest, path, found.value.0, found.value.1)
              || InOwn(own, identifies, forest, path, found.value.0, found.value.1)
    ensures found.Some? <==> exists entry, groups ::
              || (InTree(lang, identifies, forest, path, entry, groups)
                  && entry.Pattern? && MatchText(lang, entry.expression, path) == Some(groups))
              || InOwn(own, identifies, forest, path, entry, groups)
    ensures (forall entry, g, h :: identifies(entry, g) == identifies(entry, h)) ==>
              (found.Some? <==> exists entry, groups ::
                 InTree(lang, identifies, forest, path, entry, groups) || InOwn(own, identifies, forest, path, entry, groups))
  {
    if found.Some? {
      var entry := found.value.0;
      assert entry in order;
      match entry
      case Pattern(r, expression) => ServesInTree(site, depth, forest, lang, own, identifies, path, r, expression);
      case Own(route) => ServesInOwn(site, depth, forest, lang, own, identifies, path, route);
    }
    forall entry, groups | InTree(lang, identifies, forest, path, entry, groups) && entry.Pattern? && MatchText(lang, entry.expression, path) == Some(groups)
      ensures found.Some?
    {
      TakenServes(site, depth, forest, lang, own, identifies, path, entry, groups);
      assert entry in order;
    }
    forall entry, groups | InOwn(own, identifies, forest, path, entry, groups) ensures found.Some? {
      ServesInOwn(site, depth, forest, lang, own, identifies, path, entry.route);
      assert entry in order;
    }
    if forall entry, g, h :: identifies(entry, g) == identifies(entry, h) {
      forall entry, groups | InTree(lang, identifies, forest, path, entry, groups) ensures found.Some? {
        TreeServes(site, depth, forest, lang, own, identifies, path, entry, groups);
        assert entry in order;
      }
    }
  }
}
