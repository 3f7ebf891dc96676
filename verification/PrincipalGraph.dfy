/**
 The principal's graph: groups reached through parent links, perimeters widened down the
 hierarchy, and the perimeter each role ends up with. The entity store is a parameter: what
 a pull and a children query answer, or that they fail.
 */
module PrincipalGraph {
  import opened Wrappers

  type Id = string

  datatype Error = StoreFailed | NoRoles

  /// An attribute value.
  datatype Datom = Array(items: seq<string>) | Str(text: string) | Other

  type EntityMap = map<string, Datom>

  type Restriction = string

  /// The entity store of one tenant. `children` answers the query by parent_id; a pull of an
  /// unknown id answers an empty map. `strings` and `restrictions` decode JSON arrays.
  datatype Store = Store(
    children: Id -> Result<seq<Id>, Error>,
    entities: map<Id, EntityMap>,
    unreadable: set<Id>,
    strings: string -> Option<seq<string>>,
    restrictions: string -> Option<seq<Restriction>>)
  {
    function Pull(id: Id): Result<EntityMap, Error> {
      if id in unreadable then Err(StoreFailed)
      else if id in entities then Ok(entities[id])
      else Ok(map[])
    }

    function ChildrenOf(id: Id): seq<Id> {
      if children(id).Ok? then children(id).value else []
    }
  }

  // ---------------------------------------------------------------------------
  // Expanding a hierarchy
  // ---------------------------------------------------------------------------

  const MAX_HIERARCHY_DEPTH: nat := 10

  function Members(s: seq<Id>): set<Id> {
    set x | x in s
  }

  function ChildrenOfAll(store: Store, ids: set<Id>): set<Id> {
    set x, y | x in ids && y in store.ChildrenOf(x) :: y
  }

  /// One step down, keeping what is there.
  function Down(store: Store, ids: set<Id>): set<Id> {
    ids + ChildrenOfAll(store, ids)
  }

  /// The nodes at most `edges` child edges below a root.
  function Within(store: Store, roots: seq<Id>, edges: nat): set<Id> {
    if edges == 0 then Members(roots) else Down(store, Within(store, roots, edges - 1))
  }

  /// A walk from a root along child edges.
  ghost predicate IsWalk(store: Store, roots: seq<Id>, p: seq<Id>) {
    && p != [] && p[0] in roots
    && forall k :: 0 < k < |p| ==> p[k] in store.ChildrenOf(p[k - 1])
  }

  /// Within is reachability by short walks, defined without any search.
  lemma {:induction false} WithinIsReachability(store: Store, roots: seq<Id>, edges: nat, x: Id)
    ensures x in Within(store, roots, edges)
            <==> exists p :: IsWalk(store, roots, p) && |p| <= edges + 1 && p[|p| - 1] == x
  {
    if x in Within(store, roots, edges) {
      var p := WalkTo(store, roots, edges, x);
    }
    forall p | IsWalk(store, roots, p) && |p| <= edges + 1 && p[|p| - 1] == x
      ensures x in Within(store, roots, edges)
    {
      WalkStaysWithin(store, roots, p, edges);
    }
  }

  lemma {:induction false} WalkTo(store: Store, roots: seq<Id>, edges: nat, x: Id) returns (p: seq<Id>)
    requires x in Within(store, roots, edges)
    ensures IsWalk(store, roots, p) && |p| <= edges + 1 && p[|p| - 1] == x
  {
    if edges == 0 {
      p := [x];
    } else if x in Within(store, roots, edges - 1) {
      p := WalkTo(store, roots, edges - 1, x);
    } else {
      var y :| y in Within(store, roots, edges - 1) && x in store.ChildrenOf(y);
      var q := WalkTo(store, roots, edges - 1, y);
      p := q + [x];
    }
  }

  lemma {:induction false} WalkStaysWithin(store: Store, roots: seq<Id>, p: seq<Id>, edges: nat)
    requires IsWalk(store, roots, p) && |p| <= edges + 1
    ensures p[|p| - 1] in Within(store, roots, edges)
    decreases edges
  {
    if edges > 0 {
      if |p| <= edges {
        WalkStaysWithin(store, roots, p, edges - 1);
      } else {
        WalkStaysWithin(store, roots, p[..|p| - 1], edges - 1);
      }
    }
  }

  /// Once a step down finds nothing new, no further step does.
  lemma {:induction false} FixpointLasts(store: Store, roots: seq<Id>, d: nat, e: nat)
    requires d <= e && Within(store, roots, d) == Within(store, roots, d + 1)
    ensures Within(store, roots, d) == Within(store, roots, e)
    decreases e - d
  {
    hide Down;
    if d < e {
      FixpointLasts(store, roots, d, e - 1);
      assert Within(store, roots, e) == Down(store, Within(store, roots, d));
    }
  }

  ghost predicate Closed(store: Store, ids: set<Id>) {
    ChildrenOfAll(store, ids) <= ids
  }

  /// The state of the search before level d: everything nearer than d has been expanded and
  /// the queue holds the rest of what is at most d away.
  ghost predicate AtLevel(store: Store, roots: seq<Id>, d: nat, expanded: set<Id>, queue: seq<Id>) {
    && expanded == (if d == 0 then {} else Within(store, roots, d - 1))
    && expanded + Members(queue) == Within(store, roots, d)
  }

  ghost predicate NoRepeats(s: seq<Id>) {
    forall m, n :: 0 <= m < n < |s| ==> s[m] != s[n]
  }

  /// What has been asked so far: every expanded node once, and every answer was good.
  ghost predicate Asked(store: Store, expanded: set<Id>, queried: seq<Id>) {
    && Members(queried) == expanded && NoRepeats(queried)
    && forall x :: x in expanded ==> store.children(x).Ok?
  }

  lemma AskOneMore(store: Store, expanded: set<Id>, queried: seq<Id>, id: Id)
    requires Asked(store, expanded, queried) && id !in expanded
    ensures Members(queried + [id]) == expanded + {id} && NoRepeats(queried + [id])
    ensures store.children(id).Ok? ==> Asked(store, expanded + {id}, queried + [id])
  {
    assert forall m :: 0 <= m < |queried| ==> queried[m] in Members(queried);
  }

  /// The children query of one expansion, with the log of all that was asked.
  class Reader {
    const store: Store
    ghost var log: seq<Id>

    constructor (store: Store)
      ensures this.store == store && log == []
    {
      this.store := store;
      log := [];
    }

    method Children(id: Id) returns (answer: Result<seq<Id>, Error>)
      modifies this`log
      ensures answer == store.children(id) && log == old(log) + [id]
    {
      answer := store.children(id);
      log := log + [id];
    }
  }

  /// The nodes of the queue that are new, and their children. The log from `mark` on says
  /// what this expansion has asked.
  method ExpandLevel(reader: Reader, before: set<Id>, queue: seq<Id>, ghost mark: nat)
    returns (r: Result<(set<Id>, seq<Id>), Error>)
    requires mark <= |reader.log| && Asked(reader.store, before, reader.log[mark..])
    modifies reader`log
    ensures old(reader.log) <= reader.log
    ensures r.Ok? ==>
              var (expanded, next) := r.value;
              && Asked(reader.store, expanded, reader.log[mark..]) && expanded == before + Members(queue)
              && Members(next) <= ChildrenOfAll(reader.store, expanded) <= ChildrenOfAll(reader.store, before) + Members(next)
    ensures r.Err? ==> NoRepeats(reader.log[mark..]) && Members(reader.log[mark..]) <= before + Members(queue)
                       && exists x :: x in before + Members(queue) && reader.store.children(x).Err?
  {
    hide ChildrenOfAll, Asked, NoRepeats;
    ghost var store := reader.store;
    var expanded, next := before, [];
    var n := 0;
    while n < |queue|
      invariant 0 <= n <= |queue|
      invariant expanded == before + Members(queue[..n])
      invariant Members(next) <= ChildrenOfAll(store, expanded) <= ChildrenOfAll(store, before) + Members(next)
      invariant old(reader.log) <= reader.log && Asked(store, expanded, reader.log[mark..])
    {
      var id := queue[n];
      assert queue[..n + 1] == queue[..n] + [id] && id in queue;
      if id !in expanded {
        AskOneMore(store, expanded, reader.log[mark..], id);
        ghost var queried := reader.log[mark..];
        var answer := reader.Children(id);
        assert reader.log[mark..] == queried + [id];
        if answer.Err? {
          return Err(answer.error);
        }
        ChildrenOfMore(store, expanded, id);
        expanded, next := expanded + {id}, next + answer.value;
      }
      n := n + 1;
    }
    assert queue[..n] == queue;
    r := Ok((expanded, next));
  }

  /// expand_hierarchy: level by level, ten levels at most, each node asked for its children
  /// once, as the log shows.
  method ExpandHierarchy(reader: Reader, roots: seq<Id>) returns (r: Result<set<Id>, Error>)
    modifies reader`log
    ensures r.Ok? ==> r.value == Within(reader.store, roots, 9)
    ensures r.Ok? <==> forall x :: x in Within(reader.store, roots, 9) ==> reader.store.children(x).Ok?
    ensures old(reader.log) <= reader.log
    ensures var queried := reader.log[|old(reader.log)|..];
            && NoRepeats(queried) && Members(queried) <= Within(reader.store, roots, 9)
            && (r.Ok? ==> Members(queried) == r.value)
  {
    hide Down, Within, AtLevel, Asked, NoRepeats;
    ghost var store, mark := reader.store, |reader.log|;
    AtRoots(store, roots);
    assert reader.log[mark..] == [];
    if roots == [] {
      WithinNothing(store, 9);
      return Ok({});
    }
    var expanded: set<Id> := {};
    var queue := roots;
    var depth := 0;
    while depth < MAX_HIERARCHY_DEPTH && queue != []
      invariant 0 <= depth <= MAX_HIERARCHY_DEPTH && (depth == 0 ==> queue != [])
      invariant AtLevel(store, roots, depth, expanded, queue)
      invariant old(reader.log) <= reader.log && Asked(store, expanded, reader.log[mark..])
    {
      LevelIsWithin(store, roots, depth, expanded, queue);
      var level := ExpandLevel(reader, expanded, queue, mark);
      if level.Err? {
        return Err(level.error);
      }
      NextLevel(store, roots, depth, expanded, queue, level.value.0, level.value.1);
      expanded, queue := level.value.0, level.value.1;
      depth := depth + 1;
    }
    LevelsDone(store, roots, depth, expanded, queue, reader.log[mark..]);
    r := Ok(expanded);
  }

  lemma AtRoots(store: Store, roots: seq<Id>)
    ensures AtLevel(store, roots, 0, {}, roots) && Asked(store, {}, []) && NoRepeats([])
  {
  }

  lemma LevelIsWithin(store: Store, roots: seq<Id>, d: nat, expanded: set<Id>, queue: seq<Id>)
    requires AtLevel(store, roots, d, expanded, queue) && d < MAX_HIERARCHY_DEPTH
    ensures expanded + Members(queue) <= Within(store, roots, 9)
  {
    WithinGrows(store, roots, d, 9);
  }

  lemma LevelsDone(store: Store, roots: seq<Id>, d: nat, expanded: set<Id>, queue: seq<Id>, queried: seq<Id>)
    requires AtLevel(store, roots, d, expanded, queue) && Asked(store, expanded, queried)
    requires d == MAX_HIERARCHY_DEPTH || (queue == [] && 0 < d < MAX_HIERARCHY_DEPTH)
    ensures expanded == Within(store, roots, 9) == Members(queried) && NoRepeats(queried)
    ensures forall x :: x in expanded ==> store.children(x).Ok?
  {
    hide Within;
    if d < MAX_HIERARCHY_DEPTH {
      QueueRanDry(store, roots, d, expanded);
    }
  }

  lemma {:induction false} WithinNothing(store: Store, d: nat)
    ensures Within(store, [], d) == {}
  {
    if d > 0 {
      WithinNothing(store, d - 1);
    }
  }

  lemma DownGrows(store: Store, ids: set<Id>)
    ensures ids <= Down(store, ids)
  {
  }

  lemma {:induction false} WithinGrows(store: Store, roots: seq<Id>, d: nat, e: nat)
    requires d <= e
    ensures Within(store, roots, d) <= Within(store, roots, e)
    decreases e - d
  {
    hide Down;
    if d < e {
      WithinGrows(store, roots, d, e - 1);
      DownGrows(store, Within(store, roots, e - 1));
    }
  }

  lemma ChildrenOfMore(store: Store, ids: set<Id>, id: Id)
    ensures ChildrenOfAll(store, ids + {id}) == ChildrenOfAll(store, ids) + Members(store.ChildrenOf(id))
  {
  }

  lemma {:induction false} NextLevel(store: Store, roots: seq<Id>, d: nat, before: set<Id>, queue: seq<Id>, expanded: set<Id>, next: seq<Id>)
    requires AtLevel(store, roots, d, before, queue) && expanded == before + Members(queue)
    requires Members(next) <= ChildrenOfAll(store, expanded) <= ChildrenOfAll(store, before) + Members(next)
    ensures AtLevel(store, roots, d + 1, expanded, next)
  {
    assert expanded == Within(store, roots, d);
    assert Within(store, roots, d + 1) == expanded + ChildrenOfAll(store, expanded);
    if d == 0 {
      assert ChildrenOfAll(store, {}) == {};
    } else {
      assert Within(store, roots, d) == before + ChildrenOfAll(store, before);
    }
  }

  lemma {:induction false} QueueRanDry(store: Store, roots: seq<Id>, d: nat, expanded: set<Id>)
    requires AtLevel(store, roots, d, expanded, []) && 0 < d < MAX_HIERARCHY_DEPTH
    ensures expanded == Within(store, roots, 9)
  {
    assert Members([]) == {};
    assert expanded == Within(store, roots, d - 1) == Within(store, roots, d);
    FixpointLasts(store, roots, d - 1, 9);
  }

  /// The expansion is the whole subtree exactly when it is closed under children, and that
  /// is exactly when nothing lies ten edges down and no nearer.
  lemma {:induction false} ExpansionIsCompleteExactlyWhenClosed(store: Store, roots: seq<Id>)
    ensures Closed(store, Within(store, roots, 9)) <==> Within(store, roots, 10) == Within(store, roots, 9)
    ensures Closed(store, Within(store, roots, 9)) <==>
            forall p :: IsWalk(store, roots, p) ==> p[|p| - 1] in Within(store, roots, 9)
  {
    var reached := Within(store, roots, 9);
    if Closed(store, reached) {
      forall p | IsWalk(store, roots, p) ensures p[|p| - 1] in reached {
        FixpointLasts(store, roots, 9, if |p| > 10 then |p| else 9);
        WalkStaysWithin(store, roots, p, if |p| > 10 then |p| else 9);
      }
    }
    if forall p :: IsWalk(store, roots, p) ==> p[|p| - 1] in reached {
      forall x | x in Within(store, roots, 10) ensures x in reached {
        var p := WalkTo(store, roots, 10, x);
      }
    }
  }

  // ---------------------------------------------------------------------------
  // Attributes
  // ---------------------------------------------------------------------------

  /// The bare key first, then the one qualified by the entity type.
  function Attr(m: EntityMap, prefix: string, key: string): Option<Datom> {
    if key in m then Some(m[key])
    else if prefix + "/" + key in m then Some(m[prefix + "/" + key])
    else None
  }

  /// A list of ids: an array is one, a text that decodes to one stands for it, any other text
  /// for itself.
  lemma IdListMeaning(store: Store, m: EntityMap, prefix: string, key: string)
    ensures forall items :: Bound(m, prefix, key, Array(items)) ==> IdList(store, Attr(m, prefix, key)) == items
    ensures forall text :: Bound(m, prefix, key, Str(text)) ==>
              IdList(store, Attr(m, prefix, key)) ==
              if text != "" && text[0] == '[' && store.strings(text).Some? then store.strings(text).value else [text]
    ensures (forall d :: Bound(m, prefix, key, d) ==> d.Other?) ==> IdList(store, Attr(m, prefix, key)) == []
  {
    var found := Attr(m, prefix, key);
    assert found.Some? ==> Bound(m, prefix, key, found.value);
  }

  function TrimStart(s: string): string {
    if s != "" && s[0] in " \t\n\r" then TrimStart(s[1..]) else s
  }

  function TrimEnd(s: string): string {
    if s != "" && s[|s| - 1] in " \t\n\r" then TrimEnd(s[..|s| - 1]) else s
  }

  function UnwrapJsonArray(store: Store, s: string): seq<string> {
    var trimmed := TrimEnd(TrimStart(s));
    if trimmed != "" && trimmed[0] == '[' && store.strings(trimmed).Some? then store.strings(trimmed).value
    else [s]
  }

  function UnwrapAll(store: Store, items: seq<string>): seq<string> {
    if items == [] then []
    else UnwrapJsonArray(store, items[0]) + UnwrapAll(store, items[1..])
  }

  function StrList(store: Store, d: Option<Datom>): seq<string> {
    match d
    case Some(Array(items)) => UnwrapAll(store, items)
    case Some(Str(text)) => UnwrapJsonArray(store, text)
    case _ => []
  }

  function IdList(store: Store, d: Option<Datom>): seq<Id> {
    match d
    case Some(Array(items)) => items
    case Some(Str(text)) =>
      if text != "" && text[0] == '[' && store.strings(text).Some? then store.strings(text).value else [text]
    case _ => []
  }

  const BLANKS: string := " \t\n\r"

  ghost predicate Blank(s: string) {
    forall k :: 0 <= k < |s| ==> s[k] in BLANKS
  }

  /// The text is a JSON list, with blanks around it.
  ghost predicate IsJsonList(store: Store, s: string, list: seq<string>) {
    exists before, core, after ::
      && s == before + core + after && Blank(before) && Blank(after)
      && core != "" && core[0] == '[' && core[|core| - 1] !in BLANKS && store.strings(core) == Some(list)
  }

  lemma {:induction false} TrimStartDrops(before: string, rest: string)
    requires Blank(before) && (rest == "" || rest[0] !in BLANKS)
    ensures TrimStart(before + rest) == rest
  {
    if before == "" {
      assert before + rest == rest;
    } else {
      assert (before + rest)[1..] == before[1..] + rest;
      TrimStartDrops(before[1..], rest);
    }
  }

  lemma {:induction false} TrimEndDrops(rest: string, after: string)
    requires Blank(after) && (rest == "" || rest[|rest| - 1] !in BLANKS)
    ensures TrimEnd(rest + after) == rest
    decreases |after|
  {
    if after == "" {
      assert rest + after == rest;
    } else {
      assert (rest + after)[..|rest + after| - 1] == rest + after[..|after| - 1];
      TrimEndDrops(rest, after[..|after| - 1]);
    }
  }

  lemma {:induction false} TrimStartSplits(s: string) returns (before: string)
    ensures s == before + TrimStart(s) && Blank(before)
    ensures TrimStart(s) == "" || TrimStart(s)[0] !in BLANKS
  {
    if s != "" && s[0] in BLANKS {
      var rest := TrimStartSplits(s[1..]);
      before := [s[0]] + rest;
    } else {
      before := "";
    }
  }

  lemma {:induction false} TrimEndSplits(s: string) returns (after: string)
    ensures s == TrimEnd(s) + after && Blank(after)
    ensures TrimEnd(s) == "" || TrimEnd(s)[|TrimEnd(s)| - 1] !in BLANKS
  {
    if s != "" && s[|s| - 1] in BLANKS {
      var rest := TrimEndSplits(s[..|s| - 1]);
      after := rest + [s[|s| - 1]];
    } else {
      after := "";
    }
  }

  lemma TrimDrops(before: string, core: string, after: string)
    requires Blank(before) && Blank(after) && core != "" && core[0] !in BLANKS && core[|core| - 1] !in BLANKS
    ensures TrimEnd(TrimStart(before + core + after)) == core
  {
    hide TrimStart, TrimEnd, Blank;
    assert before + core + after == before + (core + after);
    TrimStartDrops(before, core + after);
    TrimEndDrops(core, after);
  }

  lemma JsonListIsUnwrapped(store: Store, s: string, list: seq<string>)
    requires IsJsonList(store, s, list)
    ensures UnwrapJsonArray(store, s) == list
  {
    hide TrimStart, TrimEnd, Blank;
    var before, core, after :|
      && s == before + core + after && Blank(before) && Blank(after)
      && core != "" && core[0] == '[' && core[|core| - 1] !in BLANKS && store.strings(core) == Some(list);
    TrimDrops(before, core, after);
  }

  /// A text that is a JSON list stands for its elements, any other for itself.
  lemma UnwrapMeaning(store: Store, s: string)
    ensures forall list :: IsJsonList(store, s, list) ==> UnwrapJsonArray(store, s) == list
    ensures (forall list :: !IsJsonList(store, s, list)) ==> UnwrapJsonArray(store, s) == [s]
  {
    hide TrimStart, TrimEnd, Blank;
    forall list | IsJsonList(store, s, list) ensures UnwrapJsonArray(store, s) == list {
      JsonListIsUnwrapped(store, s, list);
    }
    if UnwrapJsonArray(store, s) != [s] {
      var before := TrimStartSplits(s);
      var after := TrimEndSplits(TrimStart(s));
      var core := TrimEnd(TrimStart(s));
      assert s == before + core + after;
      assert IsJsonList(store, s, store.strings(core).value);
    }
  }

  /// The attribute is bound to d, under its bare key or else the qualified one.
  ghost predicate Bound(m: EntityMap, prefix: string, key: string, d: Datom) {
    if key in m then m[key] == d
    else prefix + "/" + key in m && m[prefix + "/" + key] == d
  }

  /// One of the texts stored under the attribute stands for x.
  ghost predicate Names(store: Store, m: EntityMap, prefix: string, key: string, x: string) {
    exists s :: Stores(m, prefix, key, s) && StandsFor(store, s, x)
  }

  ghost predicate Stores(m: EntityMap, prefix: string, key: string, s: string) {
    || Bound(m, prefix, key, Str(s))
    || exists items :: Bound(m, prefix, key, Array(items)) && s in items
  }

  ghost predicate StandsFor(store: Store, s: string, x: string) {
    || (exists list :: IsJsonList(store, s, list) && x in list)
    || (x == s && forall list :: !IsJsonList(store, s, list))
  }

  lemma UnwrapStandsFor(store: Store, s: string, x: string)
    ensures x in UnwrapJsonArray(store, s) <==> StandsFor(store, s, x)
  {
    hide UnwrapJsonArray, IsJsonList;
    UnwrapMeaning(store, s);
  }

  lemma {:induction false} UnwrapAllMembers(store: Store, items: seq<string>, x: string)
    ensures x in UnwrapAll(store, items) <==> exists s :: s in items && StandsFor(store, s, x)
  {
    hide UnwrapJsonArray, StandsFor;
    if items != [] {
      UnwrapStandsFor(store, items[0], x);
      UnwrapAllMembers(store, items[1..], x);
      assert items == [items[0]] + items[1..];
    }
  }

  /// The elements of a list attribute are what its texts stand for.
  lemma StrListMeaning(store: Store, m: EntityMap, prefix: string, key: string, x: string)
    ensures x in StrList(store, Attr(m, prefix, key)) <==> Names(store, m, prefix, key, x)
  {
    hide UnwrapJsonArray, UnwrapAll, StandsFor;
    match Attr(m, prefix, key)
    case Some(Array(items)) =>
      UnwrapAllMembers(store, items, x);
      assert Bound(m, prefix, key, Array(items));
      forall s | s in items ensures Stores(m, prefix, key, s) {
      }
    case Some(Str(text)) =>
      UnwrapStandsFor(store, text, x);
      assert Stores(m, prefix, key, text);
    case _ =>
  }

  // ---------------------------------------------------------------------------
  // Groups
  // ---------------------------------------------------------------------------

  function Locations(store: Store, m: EntityMap): seq<Id> {
    StrList(store, Attr(m, "user_group", "allowed_locations"))
  }

  function Assets(store: Store, m: EntityMap): seq<Id> {
    StrList(store, Attr(m, "user_group", "allowed_assets"))
  }

  function Restrictions(store: Store, m: EntityMap): seq<Restriction> {
    match Attr(m, "user_group", "time_restrictions")
    case Some(Str(text)) => (match store.restrictions(text) case Some(rs) => rs case None => [])
    case _ => []
  }

  function Parent(m: EntityMap): Option<Id> {
    match Attr(m, "user_group", "parent_user_group_id")
    case Some(Str(text)) => if text == "" then None else Some(text)
    case _ => None
  }

  /// A parent is named by a text that is not empty.
  lemma ParentMeaning(m: EntityMap, p: Id)
    ensures Parent(m) == Some(p) <==> p != "" && Bound(m, "user_group", "parent_user_group_id", Str(p))
  {
  }

  function GroupOf(store: Store, g: Id): EntityMap {
    if g in store.entities && g !in store.unreadable then store.entities[g] else map[]
  }

  /// What a user inherits from groups.
  datatype Inherited = Inherited(locations: set<Id>, assets: set<Id>, restrictions: seq<Restriction>)

  /// What the text under a group's time_restrictions decodes to, if there is one and it does.
  ghost function DecodedRestrictions(store: Store, m: EntityMap): seq<Restriction> {
    var text := Attr(m, "user_group", "time_restrictions");
    if text.Some? && text.value.Str? && store.restrictions(text.value.text).Some?
    then store.restrictions(text.value.text).value else []
  }

  /// absorb_group: unions of perimeters, inherited restrictions, and the parent if it has
  /// not been visited.
  method AbsorbGroup(store: Store, m: EntityMap, acc: Inherited, visited: set<Id>, next: seq<Id>)
    returns (acc': Inherited, next': seq<Id>)
    ensures acc' == Absorb(store, m, acc)
    ensures forall x :: x in acc'.locations <==> x in acc.locations || Names(store, m, "user_group", "allowed_locations", x)
    ensures forall x :: x in acc'.assets <==> x in acc.assets || Names(store, m, "user_group", "allowed_assets", x)
    ensures acc'.restrictions == acc.restrictions + DecodedRestrictions(store, m)
    ensures next' == next + (if Parent(m).Some? && Parent(m).value !in visited then [Parent(m).value] else [])
  {
    hide UnwrapAll, UnwrapJsonArray, Names;
    AbsorbedNames(store, m, acc);
    acc', next' := acc, next;
    if m == map[] {
      return;
    }
    acc' := acc'.(locations := acc'.locations + Members(Locations(store, m)));
    acc' := acc'.(assets := acc'.assets + Members(Assets(store, m)));
    var text := Attr(m, "user_group", "time_restrictions");
    if text.Some? && text.value.Str? {
      var parsed := store.restrictions(text.value.text);
      if parsed.Some? {
        acc' := acc'.(restrictions := acc'.restrictions + parsed.value);
      }
    }
    var parent := Attr(m, "user_group", "parent_user_group_id");
    if parent.Some? && parent.value.Str? && parent.value.text != "" && parent.value.text !in visited {
      next' := next' + [parent.value.text];
    }
  }

  lemma AbsorbedNames(store: Store, m: EntityMap, acc: Inherited)
    ensures var all := Absorb(store, m, acc);
            forall x ::
              && (x in all.locations <==> x in acc.locations || Names(store, m, "user_group", "allowed_locations", x))
              && (x in all.assets <==> x in acc.assets || Names(store, m, "user_group", "allowed_assets", x))
  {
    hide StrList, Names;
    forall x
      ensures x in Locations(store, m) <==> Names(store, m, "user_group", "allowed_locations", x)
      ensures x in Assets(store, m) <==> Names(store, m, "user_group", "allowed_assets", x)
    {
      StrListMeaning(store, m, "user_group", "allowed_locations", x);
      StrListMeaning(store, m, "user_group", "allowed_assets", x);
    }
  }

  function Absorb(store: Store, m: EntityMap, acc: Inherited): Inherited {
    Inherited(acc.locations + Members(Locations(store, m)),
              acc.assets + Members(Assets(store, m)),
              acc.restrictions + Restrictions(store, m))
  }

  /// Each group of the list absorbed once, in order.
  function AbsorbAll(store: Store, groups: seq<Id>): Inherited {
    if groups == [] then Inherited({}, {}, [])
    else Absorb(store, GroupOf(store, groups[|groups| - 1]), AbsorbAll(store, groups[..|groups| - 1]))
  }

  /// The restrictions of the groups of a list, group after group.
  ghost function RestrictionsOf(store: Store, groups: seq<Id>): seq<Restriction> {
    if groups == [] then []
    else
      var n := |groups| - 1;
      RestrictionsOf(store, groups[..n]) + DecodedRestrictions(store, GroupOf(store, groups[n]))
  }

  ghost predicate Restricts(store: Store, m: EntityMap, x: Restriction) {
    exists text :: Bound(m, "user_group", "time_restrictions", Str(text))
                   && store.restrictions(text).Some? && x in store.restrictions(text).value
  }

  lemma {:induction false} RestrictionsAbsorbed(store: Store, groups: seq<Id>)
    ensures AbsorbAll(store, groups).restrictions == RestrictionsOf(store, groups)
  {
    hide Locations, Assets;
    if groups != [] {
      RestrictionsAbsorbed(store, groups[..|groups| - 1]);
    }
  }

  lemma {:induction false} RestrictionsMeaning(store: Store, groups: seq<Id>, x: Restriction)
    ensures x in RestrictionsOf(store, groups) <==> exists g :: g in groups && Restricts(store, GroupOf(store, g), x)
  {
    if groups != [] {
      var init, last := groups[..|groups| - 1], groups[|groups| - 1];
      RestrictionsMeaning(store, init, x);
      assert groups == init + [last];
      var text := Attr(GroupOf(store, last), "user_group", "time_restrictions");
      assert Restricts(store, GroupOf(store, last), x) <==>
             text.Some? && text.value.Str? && store.restrictions(text.value.text).Some? && x in store.restrictions(text.value.text).value by {
        if text.Some? && text.value.Str? {
          assert Bound(GroupOf(store, last), "user_group", "time_restrictions", Str(text.value.text));
        }
      }
      assert forall g :: g in groups <==> g in init || g == last;
      hide Restricts;
    }
  }

  lemma {:induction false} PerimetersAbsorbed(store: Store, groups: seq<Id>, x: Id)
    ensures x in AbsorbAll(store, groups).locations <==>
            exists g :: g in groups && Names(store, GroupOf(store, g), "user_group", "allowed_locations", x)
    ensures x in AbsorbAll(store, groups).assets <==>
            exists g :: g in groups && Names(store, GroupOf(store, g), "user_group", "allowed_assets", x)
  {
    hide Names, StrList, Restrictions;
    if groups != [] {
      var init, last := groups[..|groups| - 1], groups[|groups| - 1];
      PerimetersAbsorbed(store, init, x);
      assert groups == init + [last];
      var m := GroupOf(store, last);
      StrListMeaning(store, m, "user_group", "allowed_locations", x);
      StrListMeaning(store, m, "user_group", "allowed_assets", x);
      assert x in AbsorbAll(store, groups).locations <==> x in AbsorbAll(store, init).locations || x in Locations(store, m);
      assert x in AbsorbAll(store, groups).assets <==> x in AbsorbAll(store, init).assets || x in Assets(store, m);
      hide AbsorbAll, Locations, Assets;
      assert forall g :: g in groups <==> g in init || g == last;
    }
  }

  /// What the absorbed groups hand on: every location and asset that one of them names, and
  /// every restriction as often as they list it.
  ghost predicate HandedOn(store: Store, start: seq<Id>, order: seq<Id>, acc: Inherited) {
    && (forall x :: x in acc.locations <==>
          exists g :: Ancestor(store, start, g) && Names(store, GroupOf(store, g), "user_group", "allowed_locations", x))
    && (forall x :: x in acc.assets <==>
          exists g :: Ancestor(store, start, g) && Names(store, GroupOf(store, g), "user_group", "allowed_assets", x))
    && (forall x :: x in acc.restrictions <==> exists g :: Ancestor(store, start, g) && Restricts(store, GroupOf(store, g), x))
    && acc.restrictions == RestrictionsOf(store, order)
  }

  lemma AllHandedOn(store: Store, start: seq<Id>, order: seq<Id>, acc: Inherited)
    requires forall g :: g in order <==> Ancestor(store, start, g)
    requires acc == AbsorbAll(store, order)
    ensures HandedOn(store, start, order, acc)
  {
    hide Ancestor, Names, Restricts, AbsorbAll, RestrictionsOf, GroupOf;
    RestrictionsAbsorbed(store, order);
    forall x
      ensures x in acc.locations <==>
              exists g :: g in order && Names(store, GroupOf(store, g), "user_group", "allowed_locations", x)
      ensures x in acc.assets <==>
              exists g :: g in order && Names(store, GroupOf(store, g), "user_group", "allowed_assets", x)
      ensures x in acc.restrictions <==> exists g :: g in order && Restricts(store, GroupOf(store, g), x)
    {
      PerimetersAbsorbed(store, order, x);
      RestrictionsMeaning(store, order, x);
    }
  }

  /// A chain of parent links from one of the user's own groups.
  ghost predicate IsChain(store: Store, start: seq<Id>, p: seq<Id>) {
    && p != [] && p[0] in start
    && forall k :: 0 < k < |p| ==> Parent(GroupOf(store, p[k - 1])) == Some(p[k])
  }

  ghost predicate Ancestor(store: Store, start: seq<Id>, g: Id) {
    exists p :: IsChain(store, start, p) && p[|p| - 1] == g
  }

  /// Every group a search can come across.
  ghost function Known(store: Store, start: seq<Id>): set<Id> {
    Members(start) + set g | g in store.entities && Parent(store.entities[g]).Some? :: Parent(store.entities[g]).value
  }

  lemma ChainGrows(store: Store, start: seq<Id>, g: Id, h: Id)
    requires Ancestor(store, start, g) && Parent(GroupOf(store, g)) == Some(h)
    ensures Ancestor(store, start, h)
  {
    var p :| IsChain(store, start, p) && p[|p| - 1] == g;
    var q := p + [h];
    assert IsChain(store, start, q) && q[|q| - 1] == h;
  }

  lemma {:induction false} ChainStaysInside(store: Store, start: seq<Id>, p: seq<Id>, inside: set<Id>)
    requires IsChain(store, start, p) && Members(start) <= inside
    requires forall g :: g in inside && Parent(GroupOf(store, g)).Some? ==> Parent(GroupOf(store, g)).value in inside
    ensures p[|p| - 1] in inside
  {
    if |p| > 1 {
      ChainStaysInside(store, start, p[..|p| - 1], inside);
    }
  }

  /// The wave search: what has been visited and absorbed, and what waits in the queue.
  ghost predicate Searching(store: Store, start: seq<Id>, visited: set<Id>, queue: seq<Id>, order: seq<Id>, acc: Inherited) {
    && Members(order) == visited && NoRepeats(order) && acc == AbsorbAll(store, order)
    && (forall g :: g in visited ==> Ancestor(store, start, g) && g !in store.unreadable && g in Known(store, start))
    && (forall g :: g in queue ==> Ancestor(store, start, g) && g in Known(store, start))
    && (forall g :: g in start ==> g in visited || g in queue)
    && (forall g :: g in visited && Parent(GroupOf(store, g)).Some? ==>
          Parent(GroupOf(store, g)).value in visited || Parent(GroupOf(store, g)).value in queue)
  }

  /// The groups of a wave that had not been visited, each once, in order.
  method NewOnes(queue: seq<Id>, visited: set<Id>) returns (level: seq<Id>, visited': set<Id>)
    ensures visited' == visited + Members(queue) == visited + Members(level)
    ensures NoRepeats(level) && Members(level) !! visited
  {
    level, visited' := [], visited;
    var n := 0;
    while n < |queue|
      invariant 0 <= n <= |queue|
      invariant visited' == visited + Members(queue[..n]) == visited + Members(level)
      invariant NoRepeats(level) && Members(level) !! visited
    {
      assert queue[..n + 1] == queue[..n] + [queue[n]];
      if queue[n] !in visited' {
        assert forall m :: 0 <= m < |level| ==> level[m] in Members(level);
        visited' := visited' + {queue[n]};
        level := level + [queue[n]];
      }
      n := n + 1;
    }
    assert queue[..n] == queue;
  }

  function ParentsOf(store: Store, level: seq<Id>): set<Id> {
    set g | g in level && Parent(GroupOf(store, g)).Some? :: Parent(GroupOf(store, g)).value
  }

  lemma ParentsOfMore(store: Store, level: seq<Id>, g: Id)
    ensures var p := Parent(GroupOf(store, g));
            ParentsOf(store, level + [g]) == ParentsOf(store, level) + if p.Some? then {p.value} else {}
  {
    var p := Parent(GroupOf(store, g));
    forall h | h in ParentsOf(store, level) ensures h in ParentsOf(store, level + [g]) {
      var k :| k in level && Parent(GroupOf(store, k)) == Some(h);
      assert k in level + [g];
    }
    if p.Some? {
      assert g in level + [g];
    }
  }

  lemma NoParents(store: Store, level: seq<Id>)
    requires level == []
    ensures ParentsOf(store, level) == {}
  {
  }

  lemma AbsorbAllMore(store: Store, order: seq<Id>, g: Id)
    ensures AbsorbAll(store, order + [g]) == Absorb(store, GroupOf(store, g), AbsorbAll(store, order))
  {
    assert (order + [g])[..|order|] == order;
  }

  /// Pulls and absorbs the groups of one wave.
  method AbsorbLevel(store: Store, level: seq<Id>, acc: Inherited, visited: set<Id>, ghost order: seq<Id>)
    returns (r: Result<(Inherited, seq<Id>), Error>)
    requires acc == AbsorbAll(store, order)
    ensures r.Ok? <==> forall g :: g in level ==> g !in store.unreadable
    ensures r.Ok? ==>
              && r.value.0 == AbsorbAll(store, order + level)
              && Members(r.value.1) <= ParentsOf(store, level) <= visited + Members(r.value.1)
  {
    hide AbsorbAll, Absorb, ParentsOf;
    var acc', next := acc, [];
    var n := 0;
    assert order + level[..0] == order;
    NoParents(store, level[..0]);
    while n < |level|
      invariant 0 <= n <= |level|
      invariant acc' == AbsorbAll(store, order + level[..n])
      invariant forall m :: 0 <= m < n ==> level[m] !in store.unreadable
      invariant Members(next) <= ParentsOf(store, level[..n]) <= visited + Members(next)
    {
      assert level[..n + 1] == level[..n] + [level[n]];
      ParentsOfMore(store, level[..n], level[n]);
      var pulled := store.Pull(level[n]);
      if pulled.Err? {
        return Err(pulled.error);
      }
      assert pulled.value == GroupOf(store, level[n]);
      assert order + level[..n + 1] == order + level[..n] + [level[n]];
      AbsorbAllMore(store, order + level[..n], level[n]);
      acc', next := AbsorbGroup(store, pulled.value, acc', visited, next);
      n := n + 1;
    }
    assert level[..n] == level;
    r := Ok((acc', next));
  }

  lemma {:induction false} WaveDone(store: Store, start: seq<Id>, before: set<Id>, queue: seq<Id>, order: seq<Id>,
                                    level: seq<Id>, visited: set<Id>, next: seq<Id>)
    requires Searching(store, start, before, queue, order, AbsorbAll(store, order))
    requires visited == before + Members(queue) == before + Members(level)
    requires NoRepeats(level) && Members(level) !! before
    requires forall g :: g in level ==> g !in store.unreadable
    requires Members(next) <= ParentsOf(store, level) <= visited + Members(next)
    ensures Searching(store, start, visited, next, order + level, AbsorbAll(store, order + level))
  {
    forall g | g in visited
      ensures Ancestor(store, start, g) && g !in store.unreadable && g in Known(store, start)
    {
      assert g in before || (g in Members(level) && g in Members(queue));
    }
    forall h | h in next ensures Ancestor(store, start, h) && h in Known(store, start) {
      assert h in Members(next);
      var g :| g in level && Parent(GroupOf(store, g)) == Some(h);
      assert g in Members(level) && g in visited;
      ChainGrows(store, start, g, h);
    }
    forall g | g in start ensures g in visited || g in next {
      assert g in before || g in Members(queue);
    }
    OrderGrows(order, level, before);
    forall g | g in visited && Parent(GroupOf(store, g)).Some?
      ensures Parent(GroupOf(store, g)).value in visited || Parent(GroupOf(store, g)).value in next
    {
      if g in before {
        assert Parent(GroupOf(store, g)).value in before || Parent(GroupOf(store, g)).value in Members(queue);
      } else {
        assert g in Members(level) && Parent(GroupOf(store, g)).value in ParentsOf(store, level);
      }
    }
  }

  lemma OrderGrows(order: seq<Id>, level: seq<Id>, before: set<Id>)
    requires NoRepeats(order) && NoRepeats(level) && Members(order) == before && Members(level) !! before
    ensures NoRepeats(order + level) && Members(order + level) == before + Members(level)
  {
    forall m, n | 0 <= m < n < |order + level| ensures (order + level)[m] != (order + level)[n] {
      if m < |order| <= n {
        assert order[m] in Members(order) && level[n - |order|] in Members(level);
      }
    }
  }

  lemma SearchStarts(store: Store, start: seq<Id>)
    ensures Searching(store, start, {}, start, [], Inherited({}, {}, []))
  {
    forall g | g in start ensures Ancestor(store, start, g) {
      assert IsChain(store, start, [g]) && [g][|[g]| - 1] == g;
    }
  }

  /// The search is over: nothing waits that has not been visited.
  lemma SearchEnds(store: Store, start: seq<Id>, visited: set<Id>, queue: seq<Id>, order: seq<Id>, acc: Inherited)
    requires Searching(store, start, visited, queue, order, acc) && Members(queue) <= visited
    ensures forall g :: g in visited <==> Ancestor(store, start, g)
    ensures forall g :: Ancestor(store, start, g) ==> g !in store.unreadable
    ensures NoRepeats(order) && Members(order) == visited && acc == AbsorbAll(store, order)
  {
    forall g | g in queue ensures g in visited {
      assert g in Members(queue);
    }
    forall g | Ancestor(store, start, g) ensures g in visited {
      var p :| IsChain(store, start, p) && p[|p| - 1] == g;
      ChainStaysInside(store, start, p, visited);
    }
  }

  lemma QueueIsKnown(store: Store, start: seq<Id>, visited: set<Id>, queue: seq<Id>, order: seq<Id>, acc: Inherited)
    requires Searching(store, start, visited, queue, order, acc)
    ensures visited + Members(queue) <= Known(store, start)
    ensures forall g :: g in queue ==> Ancestor(store, start, g)
    ensures acc == AbsorbAll(store, order)
  {
  }

  /// assemble_groups: waves of groups up the parent links. It ends on cycles and shared
  /// parents, visits exactly the ancestors, and absorbs each of them once.
  method AssembleGroups(store: Store, start: seq<Id>)
    returns (r: Result<(Inherited, set<Id>), Error>, ghost order: seq<Id>)
    ensures r.Ok? <==> forall g :: Ancestor(store, start, g) ==> g !in store.unreadable
    ensures r.Ok? ==>
              && (forall g :: g in r.value.1 <==> Ancestor(store, start, g))
              && NoRepeats(order) && Members(order) == r.value.1
              && r.value.0 == AbsorbAll(store, order)
              && HandedOn(store, start, order, r.value.0)
  {
    hide HandedOn, Searching, Ancestor, Known, AbsorbAll, ParentsOf;
    var acc := Inherited({}, {}, []);
    var visited: set<Id> := {};
    var queue := start;
    order := [];
    SearchStarts(store, start);
    while queue != []
      invariant Searching(store, start, visited, queue, order, acc)
      decreases Known(store, start) - visited, |queue|
    {
      ghost var before := visited;
      QueueIsKnown(store, start, visited, queue, order, acc);
      var level;
      level, visited := NewOnes(queue, visited);
      if level == [] {
        assert visited == before;
        break;
      }
      var absorbed := AbsorbLevel(store, level, acc, visited, order);
      assert level[0] in Members(level);
      if absorbed.Err? {
        var g :| g in level && g in store.unreadable;
        assert g in Members(level) && g in Members(queue);
        return Err(absorbed.error), order;
      }
      WaveDone(store, start, before, queue, order, level, visited, absorbed.value.1);
      acc, queue := absorbed.value.0, absorbed.value.1;
      order := order + level;
    }
    SearchEnds(store, start, visited, queue, order, acc);
    assert forall g :: g in order <==> g in Members(order);
    AllHandedOn(store, start, order, acc);
    r := Ok((acc, visited));
  }
}
