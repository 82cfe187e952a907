/** Permission rules of a role and the fallback from role to role. src/broker/module/authorizer/permission_nodes.cc. */
module Permissions {
  import opened Bytes
  import opened Paths

  datatype Level = NoPermission | ListPermission | ReadPermission | WritePermission | ConfigPermission | InvalidLevel

  datatype Rule = Rule(path: Bytes, level: Level)

  const SLASH: Byte := 0x2f
  const LOOP_PROTECT: nat := 16
  const DEFAULT_ROLE_NAME: Bytes := [0x64, 0x65, 0x66, 0x61, 0x75, 0x6c, 0x74]
  /** The list child that is the action itself. */
  const ADD_ROLE_NAME: Bytes := [0x61, 0x64, 0x64, 0x2d, 0x72, 0x6f, 0x6c, 0x65]

  /** What is stored of a role. */
  datatype Stored = Stored(rules: seq<Rule>, defaultLevel: Level, fallbackName: Bytes)

  // ---------------------------------------------------------------- the rules of one role

  /** The order of std::string, which std::map keeps its keys in. */
  predicate Less(a: Bytes, b: Bytes)
  {
    b != [] && (a == [] || a[0] < b[0] || (a[0] == b[0] && Less(a[1..], b[1..])))
  }

  ghost predicate Sorted(rules: seq<Rule>)
  {
    forall i, j :: 0 <= i < j < |rules| ==> Less(rules[i].path, rules[j].path)
  }

  /** The rule is for the path itself or for a folder above it. */
  predicate Covers(rule: Bytes, path: Bytes)
  {
    rule <= path && (|path| == |rule| || path[|rule|] == SLASH)
  }

  /** That is: the rule is the path, or the path goes on with a slash behind it. */
  lemma CoversExact(rule: Bytes, path: Bytes)
    ensures Covers(rule, path) <==> path == rule || exists below: Bytes :: path == rule + [0x2f] + below
  {
    if Covers(rule, path) && path != rule {
      assert path == rule + [path[|rule|]] + path[|rule| + 1..];
    }
    if below: Bytes :| path == rule + [0x2f] + below {
      assert rule <= path;
    }
  }

  /** Of two different prefixes of one path the longer one is the greater one. */
  lemma {:induction false} PrefixOrder(a: Bytes, b: Bytes, path: Bytes)
    requires a <= path && b <= path
    ensures Less(a, b) <==> |a| < |b|
  {
    if a != [] && b != [] {
      assert a[0] == b[0] == path[0];
      assert a[1..] <= path[1..] && b[1..] <= path[1..];
      PrefixOrder(a[1..], b[1..], path[1..]);
    }
  }

  /** `i` is the longest rule that covers the path. */
  ghost predicate IsLongest(rules: seq<Rule>, path: Bytes, i: nat)
  {
    && i < |rules| && Covers(rules[i].path, path)
    && forall j :: 0 <= j < |rules| && j != i && Covers(rules[j].path, path) ==> |rules[j].path| < |rules[i].path|
  }

  ghost predicate NoneCovers(rules: seq<Rule>, path: Bytes)
  {
    forall j :: 0 <= j < |rules| ==> !Covers(rules[j].path, path)
  }

  lemma NoLongest(rules: seq<Rule>, path: Bytes)
    ensures NoneCovers(rules, path) ==> forall i: nat :: !IsLongest(rules, path, i)
  {
  }

  lemma LongestUnique(rules: seq<Rule>, path: Bytes, i: nat, j: nat)
    requires IsLongest(rules, path, i) && IsLongest(rules, path, j)
    ensures i == j
  {
  }

  /** The backward search of get_permission finds the longest rule that covers the path. */
  method FindRule(rules: seq<Rule>, path: Bytes) returns (found: Option<Level>)
    requires Sorted(rules)
    ensures found.Some? <==> !NoneCovers(rules, path)
    ensures forall i: nat :: IsLongest(rules, path, i) ==> found == Some(rules[i].level)
    ensures found.Some? ==> exists i: nat :: IsLongest(rules, path, i)
  {
    var it := |rules|;
    while it > 0
      invariant 0 <= it <= |rules|
      invariant forall j :: it <= j < |rules| ==> !Covers(rules[j].path, path)
    {
      it := it - 1;
      var rule := rules[it];
      if rule.path <= path && (|path| == |rule.path| || path[|rule.path|] == SLASH) {
        forall j | 0 <= j < |rules| && j != it && Covers(rules[j].path, path)
          ensures |rules[j].path| < |rules[it].path|
        {
          PrefixOrder(rules[j].path, rules[it].path, path);
        }
        assert IsLongest(rules, path, it);
        forall i: nat | IsLongest(rules, path, i) ensures i == it {
          LongestUnique(rules, path, i, it);
        }
        return Some(rule.level);
      }
    }
    found := None;
  }

  // ---------------------------------------------------------------- fallback

  /** What get_permission reads of a role: its rules, its default level, and the role it falls back on. */
  datatype RoleData = RoleData(rules: seq<Rule>, defaultLevel: Level, fallback: RoleNode)

  type Graph = map<RoleNode, RoleData>

  ghost predicate Closed(g: Graph)
  {
    forall r {:trigger g[r].fallback} {:trigger g[r].rules} :: r in g ==> g[r].fallback in g && Sorted(g[r].rules)
  }

  /** What a role says of a path by itself. */
  ghost function Own(d: RoleData, path: Bytes): Option<Level>
  {
    if exists i: nat :: IsLongest(d.rules, path, i) then (var i: nat :| IsLongest(d.rules, path, i); Some(d.rules[i].level))
    else if d.defaultLevel != InvalidLevel then Some(d.defaultLevel)
    else None
  }

  /** The role `k` steps down the fallback chain. */
  ghost function ChainAt(g: Graph, r: RoleNode, k: nat): (c: RoleNode)
    requires Closed(g) && r in g
    ensures c in g
  {
    if k == 0 then r else ChainAt(g, g[r].fallback, k - 1)
  }

  /** The recursion of get_permission. */
  ghost function Resolve(g: Graph, r: RoleNode, path: Bytes, loopProtect: int): Level
    requires Closed(g) && r in g
    decreases if loopProtect < 0 then 0 else loopProtect
  {
    match Own(g[r], path)
    case Some(level) => level
    case None => if loopProtect <= 0 then NoPermission else Resolve(g, g[r].fallback, path, loopProtect - 1)
  }

  /** None of the first `n` roles on the chain says anything. */
  ghost predicate Silent(g: Graph, r: RoleNode, path: Bytes, n: nat)
    requires Closed(g) && r in g
  {
    forall k: nat :: k < n ==> Own(g[ChainAt(g, r, k)], path).None?
  }

  lemma SilentStep(g: Graph, r: RoleNode, path: Bytes, n: nat)
    requires Closed(g) && r in g
    ensures g[r].fallback in g
    ensures Silent(g, r, path, n + 1) ==> Own(g[r], path).None? && Silent(g, g[r].fallback, path, n)
  {
    hide Own, Sorted;
    assert ChainAt(g, r, 0) == r;
    forall k: nat | k < n ensures ChainAt(g, g[r].fallback, k) == ChainAt(g, r, k + 1) {
    }
  }

  /** Whatever the graph of roles, with self loops and cycles: the answer comes from the first role on the chain that says
      something, if that is within loopProtect steps ... */
  lemma {:induction false} ResolveFirst(g: Graph, r: RoleNode, path: Bytes, loopProtect: nat, k: nat)
    requires Closed(g) && r in g && k <= loopProtect
    requires Silent(g, r, path, k) && Own(g[ChainAt(g, r, k)], path).Some?
    ensures Resolve(g, r, path, loopProtect) == Own(g[ChainAt(g, r, k)], path).value
    decreases k
  {
    hide Own, Closed, Silent;
    if k > 0 {
      SilentStep(g, r, path, k - 1);
      ResolveFirst(g, g[r].fallback, path, loopProtect - 1, k - 1);
    }
  }

  /** ... and is no permission if none within that many steps does. */
  lemma {:induction false} ResolveSilent(g: Graph, r: RoleNode, path: Bytes, loopProtect: nat)
    requires Closed(g) && r in g && Silent(g, r, path, loopProtect + 1)
    ensures Resolve(g, r, path, loopProtect) == NoPermission
    decreases loopProtect
  {
    hide Own, Closed, Silent;
    SilentStep(g, r, path, loopProtect);
    if loopProtect > 0 {
      ResolveSilent(g, g[r].fallback, path, loopProtect - 1);
    }
  }

  /** Both together for the limit that get_permission starts with: the answer of the first of at most 17 roles that says
      something, else no permission. */
  lemma FirstOfSeventeen(g: Graph, r: RoleNode, path: Bytes)
    requires Closed(g) && r in g
    ensures var level := Resolve(g, r, path, LOOP_PROTECT);
            if Silent(g, r, path, 17) then level == NoPermission
            else exists k: nat :: k <= 16 && Silent(g, r, path, k) && Own(g[ChainAt(g, r, k)], path) == Some(level)
  {
    hide Own, Closed, ChainAt, Resolve;
    if Silent(g, r, path, 17) {
      ResolveSilent(g, r, path, LOOP_PROTECT);
    } else {
      var k := FirstSaying(g, r, path, 17);
      ResolveFirst(g, r, path, LOOP_PROTECT, k);
    }
  }

  lemma {:induction false} FirstSaying(g: Graph, r: RoleNode, path: Bytes, n: nat) returns (k: nat)
    requires Closed(g) && r in g && !Silent(g, r, path, n)
    ensures k < n && Silent(g, r, path, k) && Own(g[ChainAt(g, r, k)], path).Some?
  {
    hide Own, Closed, ChainAt;
    if Silent(g, r, path, n - 1) {
      k := n - 1;
    } else {
      k := FirstSaying(g, r, path, n - 1);
    }
  }

  /** A chain that comes back to a role it has met goes on with the same answers: so when the chain closes within the
      protected number of steps, no permission means that no role on the whole chain says anything else. */
  lemma {:induction false} CycleRepeats(g: Graph, r: RoleNode, a: nat, period: nat, k: nat)
    requires Closed(g) && r in g && period > 0 && ChainAt(g, r, a) == ChainAt(g, r, a + period)
    requires k >= a + period
    ensures ChainAt(g, r, k) == ChainAt(g, r, k - period)
    decreases k
  {
    if k > a + period {
      CycleRepeats(g, r, a, period, k - 1);
      ChainStep(g, r, k - 1);
      ChainStep(g, r, k - 1 - period);
    }
  }

  lemma {:induction false} ChainStep(g: Graph, r: RoleNode, k: nat)
    requires Closed(g) && r in g
    ensures ChainAt(g, r, k + 1) == g[ChainAt(g, r, k)].fallback
    decreases k
  {
    if k > 0 {
      ChainStep(g, g[r].fallback, k - 1);
    }
  }

  lemma {:induction false} SilentCycle(g: Graph, r: RoleNode, path: Bytes, a: nat, period: nat, k: nat)
    requires Closed(g) && r in g && period > 0 && ChainAt(g, r, a) == ChainAt(g, r, a + period)
    requires Silent(g, r, path, a + period)
    ensures Own(g[ChainAt(g, r, k)], path).None?
    decreases k
  {
    if k >= a + period {
      CycleRepeats(g, r, a, period, k);
      SilentCycle(g, r, path, a, period, k - period);
    }
  }

  lemma NoRules()
    ensures Sorted([])
  {
  }

  // ---------------------------------------------------------------- the nodes

  /** The roles belong to `root`, and what they remember are such roles. */
  ghost predicate Registered(root: RoleRoot, roles: set<RoleNode>)
    reads roles
  {
    forall r :: r in roles ==> r.root == root && (r.fallbackCache != null ==> r.fallbackCache in roles)
  }

  /** The graph that get_permission walks. */
  ghost function GraphOf(roles: set<RoleNode>, children: map<Bytes, RoleNode>, defaultRole: RoleNode): Graph
    reads roles, set r | r in roles && r.fallbackCache != null :: r.fallbackCache
  {
    map r | r in roles :: RoleData(r.rules, r.defaultLevel, r.FallbackAmong(children, defaultRole))
  }

  lemma GraphWithOneMore(roles: set<RoleNode>, children: map<Bytes, RoleNode>, defaultRole: RoleNode, name: Bytes, role: RoleNode)
    requires Closed(GraphOf(roles, children, defaultRole)) && role !in roles && Sorted(role.rules) && role.fallbackCache == null
    requires name !in children && defaultRole in roles && forall n :: n in children ==> children[n] in roles
    ensures var before, after := GraphOf(roles, children, defaultRole), GraphOf(roles + {role}, children[name := role], defaultRole);
            && Closed(after)
            && after[role] == RoleData(role.rules, role.defaultLevel, role.FallbackAmong(children[name := role], defaultRole))
            && forall r :: r in roles ==>
                 after[r] == before[r].(fallback := if r.Searches() && r.fallbackName == name then role else before[r].fallback)
  {
    hide Sorted, Closed, RoleNode.FallbackAmong, RoleNode.Searches;
    forall r | r in roles
      ensures r.FallbackAmong(children[name := role], defaultRole)
              == if r.Searches() && r.fallbackName == name then role else r.FallbackAmong(children, defaultRole)
    {
      r.OneMoreRole(children, defaultRole, name, role);
    }
    role.FallbackByName(children[name := role], defaultRole);
    GraphCloses(GraphOf(roles, children, defaultRole), GraphOf(roles + {role}, children[name := role], defaultRole), role);
  }

  lemma GraphCloses(before: Graph, after: Graph, role: RoleNode)
    requires Closed(before) && after.Keys == before.Keys + {role} && Sorted(after[role].rules) && after[role].fallback in after
    requires forall r :: r in before && r != role ==>
               after[r].rules == before[r].rules && (after[r].fallback == role || after[r].fallback == before[r].fallback)
    ensures Closed(after)
  {
    hide Sorted;
  }

  lemma RegisterOne(root: RoleRoot, roles: set<RoleNode>, role: RoleNode)
    requires Registered(root, roles) && role.root == root && role.fallbackCache == null
    ensures Registered(root, roles + {role}) && forall r :: r in roles ==> r.root == root
  {
  }

  /** PermissionRoleRootNode. */
  class RoleRoot {
    var children: map<Bytes, RoleNode>
    var defaultRole: RoleNode?
    /** Every role there has been, and the graph that get_permission walks, with the cached fallbacks it would use. */
    ghost var roles: set<RoleNode>
    ghost var graph: Graph

    ghost predicate Valid()
      reads this, roles
    {
      && defaultRole != null && defaultRole in roles && (forall n :: n in children ==> children[n] in roles)
      && Registered(this, roles) && Closed(graph) && graph == GraphOf(roles, children, defaultRole)
    }

    /** The default role as it was stored, or one that allows everything. */
    constructor (stored: Option<Stored>)
      requires stored.Some? ==> Sorted(stored.value.rules)
      ensures Valid() && fresh(defaultRole) && children == map[DEFAULT_ROLE_NAME := defaultRole] && roles == {defaultRole}
      ensures defaultRole.defaultLevel != InvalidLevel
      ensures match stored
              case None => defaultRole.rules == [] && defaultRole.defaultLevel == ConfigPermission
              case Some(d) =>
                && defaultRole.rules == d.rules && defaultRole.fallbackName == d.fallbackName
                && defaultRole.defaultLevel == if d.defaultLevel == InvalidLevel then NoPermission else d.defaultLevel
      ensures graph[defaultRole] == RoleData(defaultRole.rules, defaultRole.defaultLevel, defaultRole)
    {
      hide Sorted;
      assert Sorted([]) by { NoRules(); }
      children, defaultRole := map[], null;
      new;
      var d := if stored.Some? then stored.value else Stored([], ConfigPermission, []);
      defaultRole := new RoleNode(this, d.rules, if d.defaultLevel == InvalidLevel then NoPermission else d.defaultLevel, d.fallbackName);
      children := map[DEFAULT_ROLE_NAME := defaultRole];
      roles, graph := {defaultRole}, map[defaultRole := RoleData(d.rules, defaultRole.defaultLevel, defaultRole)];
    }

    /** One more role becomes a child. It is the fallback of the roles that name it, exactly except those that have looked
        for it before and remember the default role. */
    method AddRole(name: Bytes, stored: Stored) returns (role: RoleNode)
      requires Valid() && name !in children && Sorted(stored.rules)
      modifies this
      ensures Valid() && fresh(role) && children == old(children)[name := role] && roles == old(roles) + {role}
      ensures defaultRole == old(defaultRole)
      ensures graph[role] == RoleData(stored.rules, stored.defaultLevel, Lookup(stored.fallbackName))
      ensures forall r :: r in old(roles) ==>
                graph[r] == old(graph)[r].(fallback := if r.Searches() && r.fallbackName == name then role else old(graph)[r].fallback)
    {
      hide Sorted, Closed, RoleNode.FallbackAmong, RoleNode.Searches;
      role := new RoleNode(this, stored.rules, stored.defaultLevel, stored.fallbackName);
      Attach(name, role);
    }

    /** The action add-role: a new role without rules, unless the name is taken, is not a node name, or is that of the action. */
    method AddNamedRole(name: Bytes, signedChar: bool) returns (ok: bool)
      requires Valid()
      modifies this
      ensures Valid() && defaultRole == old(defaultRole)
      ensures ok <==> name !in old(children) && name != ADD_ROLE_NAME && ValidName(name, false, signedChar)
      ensures !ok ==> children == old(children) && roles == old(roles) && graph == old(graph)
      ensures ok ==>
                && name in children && children == old(children)[name := children[name]] && fresh(children[name])
                && roles == old(roles) + {children[name]} && graph[children[name]] == RoleData([], InvalidLevel, Lookup([]))
                && forall r :: r in old(roles) ==>
                     graph[r] == old(graph)[r].(fallback := if r.Searches() && r.fallbackName == name then children[name]
                                                            else old(graph)[r].fallback)
    {
      hide Valid, Sorted, RoleNode.Searches, NameChars;
      if name in children || name == ADD_ROLE_NAME {
        return false;
      }
      var invalid := InvalidName(name, false, signedChar);
      if invalid {
        return false;
      }
      assert Sorted([]) by { NoRules(); }
      var role := AddRole(name, Stored([], InvalidLevel, []));
      ok := true;
    }

    /** add_list_child. */
    method Attach(name: Bytes, role: RoleNode)
      requires Valid() && name !in children && role !in roles
      requires role.root == this && role.fallbackCache == null && Sorted(role.rules)
      modifies `children, `roles, `graph
      ensures Valid() && children == old(children)[name := role] && roles == old(roles) + {role}
      ensures graph[role] == RoleData(role.rules, role.defaultLevel, Lookup(role.fallbackName))
      ensures forall r :: r in old(roles) ==>
                graph[r] == old(graph)[r].(fallback := if r.Searches() && r.fallbackName == name then role else old(graph)[r].fallback)
    {
      hide Sorted, Closed, RoleNode.FallbackAmong, RoleNode.Searches, Registered, GraphOf;
      RegisterOne(this, roles, role);
      GraphWithOneMore(roles, children, defaultRole, name, role);
      role.FallbackByName(children[name := role], defaultRole);
      children, roles, graph := children[name := role], roles + {role}, GraphOf(roles + {role}, children[name := role], defaultRole);
    }

    /** The role of this name, or the default role. */
    function Lookup(name: Bytes): RoleNode
      requires defaultRole != null
      reads this
    {
      if name in children then children[name] else defaultRole
    }
  }

  class RoleNode {
    const root: RoleRoot
    var rules: seq<Rule>
    var defaultLevel: Level
    var fallbackName: Bytes
    var fallbackCache: RoleNode?
    var destroyed: bool

    constructor (root: RoleRoot, rules: seq<Rule>, defaultLevel: Level, fallbackName: Bytes)
      ensures this.root == root && this.rules == rules && this.defaultLevel == defaultLevel && this.fallbackName == fallbackName
      ensures fallbackCache == null && !destroyed
    {
      this.root, this.rules, this.defaultLevel, this.fallbackName := root, rules, defaultLevel, fallbackName;
      fallbackCache, destroyed := null, false;
    }

    /** It has no fallback role in mind. */
    predicate Searches()
      reads this, fallbackCache
    {
      fallbackCache == null || fallbackCache.destroyed
    }

    /** The role this one falls back on now. */
    function Fallback(): RoleNode
      requires root.defaultRole != null
      reads this, fallbackCache, root
    {
      FallbackAmong(root.children, root.defaultRole)
    }

    function FallbackAmong(children: map<Bytes, RoleNode>, defaultRole: RoleNode): RoleNode
      reads this, fallbackCache
    {
      if !Searches() then fallbackCache else if fallbackName in children then children[fallbackName] else defaultRole
    }

    lemma FallbackByName(children: map<Bytes, RoleNode>, defaultRole: RoleNode)
      requires fallbackCache == null
      ensures FallbackAmong(children, defaultRole) == if fallbackName in children then children[fallbackName] else defaultRole
    {
    }

    lemma OneMoreRole(children: map<Bytes, RoleNode>, defaultRole: RoleNode, name: Bytes, role: RoleNode)
      requires name !in children
      ensures FallbackAmong(children[name := role], defaultRole)
              == if Searches() && fallbackName == name then role else FallbackAmong(children, defaultRole)
    {
    }

    /** get_fallback_role. Remembering the role changes nothing in the graph. */
    method GetFallbackRole() returns (r: RoleNode)
      requires root.Valid() && this in root.roles
      modifies `fallbackCache
      ensures root.Valid() && r in root.roles && r == root.graph[this].fallback && fallbackCache == r
    {
      hide Closed;
      if fallbackCache == null || fallbackCache.destroyed {
        Remember(root.Lookup(fallbackName));
      }
      r := fallbackCache;
    }

    method Remember(role: RoleNode)
      requires root.Valid() && this in root.roles && role in root.roles
      requires role == root.Lookup(fallbackName) && (fallbackCache == null || fallbackCache.destroyed)
      modifies `fallbackCache
      ensures root.Valid() && fallbackCache == role && role == root.graph[this].fallback
    {
      hide Closed;
      fallbackCache := role;
      forall x | x in root.roles ensures x.Fallback() == old(x.Fallback()) {
        if x != this {
          assert x.fallbackCache == old(x.fallbackCache);
        }
      }
    }

    /** get_permission. A role that has to ask its fallback role remembers it; one that has an answer changes nothing. */
    method GetPermission(path: Bytes, loopProtect: int) returns (level: Level)
      requires root.Valid() && this in root.roles
      modifies root.roles`fallbackCache
      ensures root.Valid() && level == Resolve(root.graph, this, path, loopProtect)
      ensures forall i: nat :: IsLongest(rules, path, i) ==> level == rules[i].level
      ensures NoneCovers(rules, path) && defaultLevel != InvalidLevel ==> level == defaultLevel
      ensures NoneCovers(rules, path) && defaultLevel == InvalidLevel && loopProtect <= 0 ==> level == NoPermission
      ensures forall r :: r in root.roles ==> r.fallbackCache == old(r.fallbackCache) || r.fallbackCache == root.graph[r].fallback
      ensures if NoneCovers(rules, path) && defaultLevel == InvalidLevel && loopProtect > 0
              then fallbackCache == root.graph[this].fallback
              else forall r :: r in root.roles ==> r.fallbackCache == old(r.fallbackCache)
      decreases if loopProtect < 0 then 0 else loopProtect
    {
      hide RoleRoot.Valid, Own, Closed, Resolve, IsLongest, NoneCovers, Sorted;
      ViewOfThis();
      var found := FindRule(rules, path);
      NoLongest(rules, path);
      OwnCases(root.graph[this], path);
      ResolveStep(root.graph, this, path, loopProtect);
      if found.Some? {
        return found.value;
      }
      if defaultLevel != InvalidLevel {
        return defaultLevel;
      }
      if loopProtect <= 0 {
        return NoPermission;
      }
      var next := GetFallbackRole();
      next.RootIs(root);
      level := next.GetPermission(path, loopProtect - 1);
    }

    lemma RootIs(r: RoleRoot)
      requires r.Valid() && this in r.roles
      ensures root == r
    {
    }

    lemma ViewOfThis()
      requires root.Valid() && this in root.roles
      ensures Closed(root.graph) && this in root.graph && Sorted(rules)
      ensures root.graph[this].rules == rules && root.graph[this].defaultLevel == defaultLevel
    {
    }
  }

  lemma ResolveStep(g: Graph, r: RoleNode, path: Bytes, loopProtect: int)
    requires Closed(g) && r in g
    ensures g[r].fallback in g
    ensures Resolve(g, r, path, loopProtect)
            == match Own(g[r], path)
               case Some(level) => level
               case None => if loopProtect <= 0 then NoPermission else Resolve(g, g[r].fallback, path, loopProtect - 1)
  {
  }

  lemma OwnCases(d: RoleData, path: Bytes)
    ensures forall i: nat :: IsLongest(d.rules, path, i) ==> Own(d, path) == Some(d.rules[i].level)
    ensures !(exists i: nat :: IsLongest(d.rules, path, i)) ==>
              Own(d, path) == if d.defaultLevel != InvalidLevel then Some(d.defaultLevel) else None
    ensures NoneCovers(d.rules, path) ==> !(exists i: nat :: IsLongest(d.rules, path, i))
  {
  }
}
