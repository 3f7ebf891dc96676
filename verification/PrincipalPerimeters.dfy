/**
 The perimeter that each role of a principal ends up with: its own, widened down the
 hierarchy, intersected with what the principal's groups allow, widened the same way.
 */
module PrincipalPerimeters {
  import opened Wrappers
  import opened PrincipalGraph

  datatype Boundary = Boundary(role: Id, grants: seq<string>, locations: seq<Id>, assets: seq<Id>)

  datatype Perimeter = Perimeter(role: Id, grants: seq<string>, locations: set<Id>, assets: set<Id>)

  /// intersect_or_inherit
  function IntersectOrInherit(role: set<Id>, group: set<Id>): set<Id> {
    if group != {} then
      if role == {} then group else role * group
    else role
  }

  /// A side that allows nothing restricts nothing; otherwise both must allow.
  lemma IntersectOrInheritMeaning(role: set<Id>, group: set<Id>, x: Id)
    ensures x in IntersectOrInherit(role, group) <==>
            (role != {} || group != {}) && (role == {} || x in role) && (group == {} || x in group)
  {
  }

  /// What a perimeter's roots stand for. Without expansion they stand for themselves.
  function Expanded(store: Store, roots: seq<Id>, expand: bool): set<Id> {
    if expand then Within(store, roots, 9) else Members(roots)
  }

  predicate Readable(store: Store, roots: seq<Id>, expand: bool) {
    expand ==> forall x <- Within(store, roots, 9) :: store.children(x).Ok?
  }

  /// spawn_expand
  method Expand(store: Store, roots: seq<Id>, expand: bool) returns (r: Result<set<Id>, Error>)
    ensures r.Ok? <==> Readable(store, roots, expand)
    ensures r.Ok? ==> r.value == Expanded(store, roots, expand)
  {
    hide Within;
    if expand {
      var reader := new Reader(store);
      r := ExpandHierarchy(reader, roots);
    } else {
      r := Ok(Members(roots));
    }
  }

  /// Both perimeters of one role.
  function Consolidated(store: Store, b: Boundary, locations: set<Id>, assets: set<Id>, expand: bool): Perimeter {
    Perimeter(b.role, b.grants,
              IntersectOrInherit(Expanded(store, b.locations, expand), locations),
              IntersectOrInherit(Expanded(store, b.assets, expand), assets))
  }

  predicate BoundaryReadable(store: Store, b: Boundary, expand: bool) {
    Readable(store, b.locations, expand) && Readable(store, b.assets, expand)
  }

  /// consolidate_boundary
  method ConsolidateBoundary(store: Store, b: Boundary, locations: set<Id>, assets: set<Id>, expand: bool)
    returns (r: Result<Perimeter, Error>)
    ensures r.Ok? <==> BoundaryReadable(store, b, expand)
    ensures r.Ok? ==> r.value == Consolidated(store, b, locations, assets, expand)
  {
    hide Readable, Expanded;
    var ownLocations := Expand(store, b.locations, expand);
    var ownAssets := Expand(store, b.assets, expand);
    if ownLocations.Err? {
      return Err(ownLocations.error);
    }
    if ownAssets.Err? {
      return Err(ownAssets.error);
    }
    r := Ok(Perimeter(b.role, b.grants,
                      IntersectOrInherit(ownLocations.value, locations),
                      IntersectOrInherit(ownAssets.value, assets)));
  }

  /// step3_consolidate
  method Consolidate(store: Store, roles: set<Id>, boundaries: seq<Boundary>,
                     groupLocations: seq<Id>, groupAssets: seq<Id>, expand: bool)
    returns (r: Result<seq<Perimeter>, Error>)
    ensures r.Ok? <==>
              && roles != {}
              && Readable(store, groupLocations, expand) && Readable(store, groupAssets, expand)
              && forall k :: 0 <= k < |boundaries| ==> BoundaryReadable(store, boundaries[k], expand)
    ensures roles == {} ==> r == Err(NoRoles)
    ensures r.Ok? ==>
              && |r.value| == |boundaries|
              && forall k :: 0 <= k < |boundaries| ==>
                   r.value[k] == Consolidated(store, boundaries[k], Expanded(store, groupLocations, expand),
                                              Expanded(store, groupAssets, expand), expand)
  {
    hide Readable, Expanded, BoundaryReadable, Consolidated;
    if roles == {} {
      return Err(NoRoles);
    }
    var locations := Expand(store, groupLocations, expand);
    var assets := Expand(store, groupAssets, expand);
    if locations.Err? {
      return Err(locations.error);
    }
    if assets.Err? {
      return Err(assets.error);
    }
    var done: seq<Perimeter> := [];
    while |done| < |boundaries|
      invariant |done| <= |boundaries|
      invariant forall k :: 0 <= k < |done| ==>
                  && BoundaryReadable(store, boundaries[k], expand)
                  && done[k] == Consolidated(store, boundaries[k], Expanded(store, groupLocations, expand),
                                             Expanded(store, groupAssets, expand), expand)
    {
      var one := ConsolidateBoundary(store, boundaries[|done|], locations.value, assets.value, expand);
      if one.Err? {
        return Err(one.error);
      }
      done := done + [one.value];
    }
    r := Ok(done);
  }

  /// The elements of a set, in some order.
  method Listed(s: set<Id>) returns (list: seq<Id>)
    ensures Members(list) == s
  {
    list := [];
    var rest := s;
    while rest != {}
      invariant Members(list) + rest == s
      decreases rest
    {
      var x :| x in rest;
      rest := rest - {x};
      list := list + [x];
    }
  }

  // ---------------------------------------------------------------------------
  // End to end
  // ---------------------------------------------------------------------------

  /// x is the node itself or at most nine child edges below it.
  ghost predicate Below(store: Store, root: Id, x: Id) {
    exists p :: IsWalk(store, [root], p) && |p| <= 10 && p[|p| - 1] == x
  }

  lemma WithinIsBelowSomeRoot(store: Store, roots: seq<Id>, x: Id)
    ensures x in Within(store, roots, 9) <==> exists root :: root in roots && Below(store, root, x)
  {
    hide Within;
    WithinIsReachability(store, roots, 9, x);
    forall p | IsWalk(store, roots, p) && |p| <= 10 && p[|p| - 1] == x ensures Below(store, p[0], x) {
      assert IsWalk(store, [p[0]], p);
    }
    forall root | root in roots && Below(store, root, x)
      ensures exists p :: IsWalk(store, roots, p) && |p| <= 10 && p[|p| - 1] == x
    {
      var p :| IsWalk(store, [root], p) && |p| <= 10 && p[|p| - 1] == x;
      assert IsWalk(store, roots, p);
    }
  }

  /// The two kinds of things a perimeter lists.
  datatype Resource = Location | Asset

  function Listing(store: Store, g: Id, kind: Resource): seq<Id> {
    if kind.Location? then Locations(store, GroupOf(store, g)) else Assets(store, GroupOf(store, g))
  }

  function Inheritance(acc: Inherited, kind: Resource): set<Id> {
    if kind.Location? then acc.locations else acc.assets
  }

  function Own(b: Boundary, kind: Resource): seq<Id> {
    if kind.Location? then b.locations else b.assets
  }

  function Allowed(p: Perimeter, kind: Resource): set<Id> {
    if kind.Location? then p.locations else p.assets
  }

  /// What the user's groups allow: anything at most nine edges below something that some
  /// group reachable by parent links lists.
  ghost predicate GroupsAllow(store: Store, start: seq<Id>, kind: Resource, x: Id) {
    exists g, root :: Ancestor(store, start, g) && root in Listing(store, g, kind) && Below(store, root, x)
  }

  ghost predicate GroupsList(store: Store, start: seq<Id>, kind: Resource) {
    exists g :: Ancestor(store, start, g) && Listing(store, g, kind) != []
  }

  /// Where both the role and the groups list something, a node is permitted exactly when it
  /// lies at most nine edges below one of the role's own and below one of some reachable
  /// group; where one side lists nothing, the other side decides alone.
  ghost predicate Permitted(store: Store, start: seq<Id>, own: seq<Id>, kind: Resource, x: Id) {
    && (own != [] || GroupsList(store, start, kind))
    && (own != [] ==> exists root :: root in own && Below(store, root, x))
    && (GroupsList(store, start, kind) ==> GroupsAllow(store, start, kind, x))
  }

  lemma {:induction false} AbsorbedFromGroups(store: Store, order: seq<Id>, kind: Resource, x: Id)
    ensures x in Inheritance(AbsorbAll(store, order), kind) <==> exists g :: g in order && x in Listing(store, g, kind)
  {
    hide Locations, Assets;
    if order != [] {
      var init, last := order[..|order| - 1], order[|order| - 1];
      AbsorbedFromGroups(store, init, kind, x);
      assert order == init + [last];
      assert x in Inheritance(AbsorbAll(store, order), kind) <==>
             x in Inheritance(AbsorbAll(store, init), kind) || x in Listing(store, last, kind);
      assert forall g :: g in order <==> g in init || g == last;
    }
  }

  /// What the groups' united perimeter expands to.
  lemma GroupPerimeter(store: Store, start: seq<Id>, order: seq<Id>, roots: seq<Id>, kind: Resource)
    requires forall g :: g in order <==> Ancestor(store, start, g)
    requires Members(roots) == Inheritance(AbsorbAll(store, order), kind)
    ensures forall x :: x in Within(store, roots, 9) <==> GroupsAllow(store, start, kind, x)
    ensures roots == [] <==> !GroupsList(store, start, kind)
  {
    hide Within, Listing, Ancestor, Below, AbsorbAll;
    forall root ensures root in roots <==> exists g :: Ancestor(store, start, g) && root in Listing(store, g, kind) {
      AbsorbedFromGroups(store, order, kind, root);
      assert root in roots <==> root in Members(roots);
    }
    forall x ensures x in Within(store, roots, 9) <==> GroupsAllow(store, start, kind, x) {
      WithinIsBelowSomeRoot(store, roots, x);
    }
    if GroupsList(store, start, kind) {
      var g :| Ancestor(store, start, g) && Listing(store, g, kind) != [];
      assert Listing(store, g, kind)[0] in roots;
    }
    if roots != [] {
      assert roots[0] in roots;
    }
  }

  /// The user has a role, every reachable group can be read, and so can the children of all
  /// that the groups or the roles stand for.
  ghost predicate Answerable(store: Store, start: seq<Id>, roles: set<Id>, boundaries: seq<Boundary>) {
    && roles != {}
    && (forall g :: Ancestor(store, start, g) ==> g !in store.unreadable)
    && (forall kind, x :: GroupsAllow(store, start, kind, x) ==> store.children(x).Ok?)
    && forall k, kind, root, x :: 0 <= k < |boundaries| && root in Own(boundaries[k], kind) && Below(store, root, x) ==>
                                    store.children(x).Ok?
  }

  lemma GroupsReadable(store: Store, start: seq<Id>, locations: seq<Id>, assets: seq<Id>)
    requires forall x :: x in Within(store, locations, 9) <==> GroupsAllow(store, start, Location, x)
    requires forall x :: x in Within(store, assets, 9) <==> GroupsAllow(store, start, Asset, x)
    ensures Readable(store, locations, true) && Readable(store, assets, true) <==>
            forall kind, x :: GroupsAllow(store, start, kind, x) ==> store.children(x).Ok?
  {
    hide Within, GroupsAllow;
    if Readable(store, locations, true) && Readable(store, assets, true) {
      forall kind, x | GroupsAllow(store, start, kind, x) ensures store.children(x).Ok? {
        assert kind == Location ==> x in Within(store, locations, 9);
        assert kind == Asset ==> x in Within(store, assets, 9);
      }
    }
  }

  lemma RoleReadable(store: Store, b: Boundary)
    ensures BoundaryReadable(store, b, true) <==>
            forall kind, root, x :: root in Own(b, kind) && Below(store, root, x) ==> store.children(x).Ok?
  {
    hide Within, Below;
    forall x ensures x in Within(store, b.locations, 9) <==> exists root :: root in b.locations && Below(store, root, x) {
      WithinIsBelowSomeRoot(store, b.locations, x);
    }
    forall x ensures x in Within(store, b.assets, 9) <==> exists root :: root in b.assets && Below(store, root, x) {
      WithinIsBelowSomeRoot(store, b.assets, x);
    }
    if BoundaryReadable(store, b, true) {
      forall kind, root, x | root in Own(b, kind) && Below(store, root, x) ensures store.children(x).Ok? {
        assert kind == Location ==> x in Within(store, b.locations, 9);
        assert kind == Asset ==> x in Within(store, b.assets, 9);
      }
    }
    if forall kind, root, x :: root in Own(b, kind) && Below(store, root, x) ==> store.children(x).Ok? {
      forall x | x in Within(store, b.locations, 9) ensures store.children(x).Ok? {
        var root :| root in b.locations && Below(store, root, x);
        assert root in Own(b, Location);
      }
      forall x | x in Within(store, b.assets, 9) ensures store.children(x).Ok? {
        var root :| root in b.assets && Below(store, root, x);
        assert root in Own(b, Asset);
      }
    }
  }

  /// The whole way from the groups a user names to the perimeters of the user's roles.
  method RolePerimeters(store: Store, user: EntityMap, roles: set<Id>, boundaries: seq<Boundary>)
    returns (r: Result<seq<Perimeter>, Error>)
    ensures r.Ok? <==> Answerable(store, IdList(store, Attr(user, "user", "group_ids")), roles, boundaries)
    ensures r.Ok? ==>
              && |r.value| == |boundaries|
              && (forall k :: 0 <= k < |boundaries| ==>
                    r.value[k].role == boundaries[k].role && r.value[k].grants == boundaries[k].grants)
              && var start := IdList(store, Attr(user, "user", "group_ids"));
                 forall k, kind, x :: 0 <= k < |boundaries| ==>
                   (x in Allowed(r.value[k], kind) <==> Permitted(store, start, Own(boundaries[k], kind), kind, x))
  {
    hide Within, Below, GroupsAllow, GroupsList, AbsorbAll, Ancestor, Permitted, IntersectOrInherit, Readable, BoundaryReadable;
    var start := IdList(store, Attr(user, "user", "group_ids"));
    var groups;
    ghost var order;
    groups, order := AssembleGroups(store, start);
    if groups.Err? {
      return Err(groups.error);
    }
    var groupLocations := Listed(groups.value.0.locations);
    var groupAssets := Listed(groups.value.0.assets);
    OrderIsAncestors(store, start, order, groups.value.1);
    GroupPerimeter(store, start, order, groupLocations, Location);
    GroupPerimeter(store, start, order, groupAssets, Asset);
    GroupsReadable(store, start, groupLocations, groupAssets);
    forall k | 0 <= k < |boundaries|
      ensures BoundaryReadable(store, boundaries[k], true) <==>
              forall kind, root, x :: root in Own(boundaries[k], kind) && Below(store, root, x) ==> store.children(x).Ok?
    {
      RoleReadable(store, boundaries[k]);
    }
    r := Consolidate(store, roles, boundaries, groupLocations, groupAssets, true);
    if r.Ok? {
      forall k, kind, x | 0 <= k < |boundaries|
        ensures x in Allowed(r.value[k], kind) <==> Permitted(store, start, Own(boundaries[k], kind), kind, x)
      {
        RolePerimeter(store, start, boundaries[k], if kind.Location? then groupLocations else groupAssets, r.value[k], kind, x);
      }
    }
  }

  lemma OrderIsAncestors(store: Store, start: seq<Id>, order: seq<Id>, visited: set<Id>)
    requires Members(order) == visited && forall g :: g in visited <==> Ancestor(store, start, g)
    ensures forall g :: g in order <==> Ancestor(store, start, g)
  {
    forall g ensures g in order <==> Ancestor(store, start, g) {
      assert g in order <==> g in Members(order);
    }
  }

  lemma RootsAreWithin(store: Store, roots: seq<Id>)
    ensures roots == [] <==> Within(store, roots, 9) == {}
  {
    if roots == [] {
      WithinNothing(store, 9);
    } else {
      assert roots[0] in Within(store, roots, 0);
      WithinGrows(store, roots, 0, 9);
    }
  }

  lemma RolePerimeter(store: Store, start: seq<Id>, b: Boundary, groupRoots: seq<Id>, p: Perimeter, kind: Resource, x: Id)
    requires Allowed(p, kind) == IntersectOrInherit(Within(store, Own(b, kind), 9), Within(store, groupRoots, 9))
    requires forall y :: y in Within(store, groupRoots, 9) <==> GroupsAllow(store, start, kind, y)
    requires groupRoots == [] <==> !GroupsList(store, start, kind)
    ensures x in Allowed(p, kind) <==> Permitted(store, start, Own(b, kind), kind, x)
  {
    hide Within, Below, GroupsAllow, GroupsList, Allowed;
    RootsAreWithin(store, Own(b, kind));
    RootsAreWithin(store, groupRoots);
    WithinIsBelowSomeRoot(store, Own(b, kind), x);
  }
}
