// Graph nodes: registration, named nexts and transactional edges.
module NodeGraph {
  import opened Common
  import opened NodeTables

  datatype GraphError =
    | NodeNotRegistered(node: nat)
    | SiblingOwnerNotRegistered(name: string, owner: string)
    | NodeNameAlreadyRegistered(name: string)
    | NamedNextFallbackMissing
    | NodeNextSlotOutOfRange(node: nat, slot: nat, nextCount: nat)
    | NodeNextCountOverflow(count: nat)
    | NamedNextWithResolvedTargets
    | NamedNextCountMismatch(declared: nat, actual: nat)
    | InitialNextCountMismatch(declared: nat, actual: nat)
    | NodeNextSlotMismatch(node: nat, next: nat, actual: nat, expected: nat)

  // ---- a clique's tables change together

  // The tables after `next` is appended to the table of every member of clique `c`.
  ghost predicate Pushed(tables: Tables, tables': Tables, clique: seq<nat>, c: nat, next: nat)
    requires |tables| == |clique|
  {
    |tables'| == |tables| && forall s :: 0 <= s < |tables| ==> tables'[s] == if clique[s] == c
        then tables[s] + [Some(next)] else tables[s]
  }

  lemma PushedSame(tables: Tables, tables': Tables, clique: seq<nat>, c: nat, next: nat)
    requires |tables| == |clique| && Pushed(tables, tables', clique, c, next)
    ensures SameTables(tables, clique) ==> SameTables(tables', clique)
    ensures SameSizes(tables, clique) ==> SameSizes(tables', clique)
  {
  }

  // ---- registration

  // A registration with its own next slots names each slot, gives each its target, or leaves them open.
  predicate Registrable(declared: map<string, nat>, nodes: nat, name: string, nextCount: nat, initial: seq<nat>,
                        nextNames: Option<seq<string>>) {
    && name !in declared
    && if nextNames.Some? then initial == [] && |nextNames.value| == nextCount
       else
         && |initial| <= U16_MAX + 1 && (initial == [] || |initial| == nextCount)
         && forall k :: 0 <= k < |initial| ==> initial[k] < nodes
  }

  // Why a registration is refused: the first of the checks that fails.
  predicate Unregistrable(declared: map<string, nat>, nodes: nat, name: string, nextCount: nat, initial: seq<nat>,
                          nextNames: Option<seq<string>>, error: GraphError) {
    match error
    case NodeNextCountOverflow(count) => count == |initial| > U16_MAX + 1
    case NamedNextWithResolvedTargets => |initial| <= U16_MAX + 1 && nextNames.Some? && initial != []
    case NamedNextCountMismatch(wanted, actual) =>
      nextNames.Some? && initial == [] && wanted == nextCount && actual == |nextNames.value| && wanted != actual
    case NodeNotRegistered(node) =>
      && |initial| <= U16_MAX + 1 && nextNames.None?
      && exists k :: 0 <= k < |initial| && node == initial[k] >= nodes && forall j :: 0 <= j < k ==> initial[j] < nodes
    case InitialNextCountMismatch(wanted, actual) =>
      && nextNames.None? && initial != [] && wanted == nextCount && wanted != actual == |initial| <= U16_MAX + 1
      && forall k :: 0 <= k < |initial| ==> initial[k] < nodes
    case NodeNameAlreadyRegistered(taken) =>
      taken == name && name in declared && Registrable(map[], nodes, name, nextCount, initial, nextNames)
    case _ => false
  }

  function FirstTable(nextCount: nat, initial: seq<nat>): Table
    requires initial == [] || |initial| == nextCount
  {
    if initial == [] then seq(nextCount, _ => None)
        else seq(nextCount, i requires 0 <= i < nextCount => Some(initial[i]))
  }

  function FirstNames(nextNames: Option<seq<string>>): Names {
    if nextNames.None? then []
        else seq(|nextNames.value|, i requires 0 <= i < |nextNames.value| => Some(nextNames.value[i]))
  }

  lemma FirstOpen(nextCount: nat, initial: seq<nat>, nextNames: Option<seq<string>>)
    requires initial == [] || |initial| == nextCount
    requires nextNames.Some? ==> initial == [] && |nextNames.value| == nextCount
    ensures OpenAt(FirstTable(nextCount, initial), FirstNames(nextNames))
  {
  }

  // ---- resolution

  // Every table is the resolved table of the first node of its clique.
  ghost predicate Followed(declared: map<string, nat>, tables: Tables, pending: seq<Names>, tables': Tables,
                           pending': seq<Names>,
                           clique: seq<nat>)
    requires |tables| == |pending| == |clique|
  {
    && |tables'| == |pending'| == |tables|
    && forall s {:trigger tables'[s]} {:trigger pending'[s]} :: 0 <= s < |tables| ==>
         && clique[s] < |tables|
         && tables'[s] == Fixed(declared, tables[clique[s]], pending[clique[s]], |pending[clique[s]]|)
         && pending'[s] == Settled(declared, pending[s])
  }

  lemma ResolvedSize(declared: map<string, nat>, tables: Tables, pending: seq<Names>, tables': Tables,
                     pending': seq<Names>)
    requires |tables| == |pending| && AllResolved(declared, tables, pending, tables', pending')
    ensures |tables'| == |pending'| == |tables|
  {
  }

  lemma ResolvedFollowed(declared: map<string, nat>, tables: Tables, pending: seq<Names>, resolved: Tables,
                         pending': seq<Names>,
                         tables': Tables, clique: seq<nat>)
    requires |tables| == |pending| == |clique| && AllResolved(declared, tables, pending, resolved, pending')
    requires |tables'| == |tables| && forall s :: 0 <= s < |tables| ==>
               clique[s] < |tables| && tables'[s] == resolved[clique[s]]
    ensures Followed(declared, tables, pending, tables', pending', clique)
  {
    hide Fixed, Settled;
  }

  lemma StoppedSizes(declared: map<string, nat>, tables: Tables, pending: seq<Names>, k: nat, i: nat,
                     tables': Tables, pending': seq<Names>)
    requires |tables| == |pending| && StoppedAt(declared, tables, pending, k, i, tables', pending')
    ensures |tables'| == |pending'| == |tables|
  {
  }

  // The position of a target in a table.
  method Position(table: Table, next: nat) returns (slot: Option<nat>)
    ensures slot.Some? ==>
              slot.value < |table| && table[slot.value] == Some(next) && forall i :: 0 <= i < slot.value ==>
                  table[i] != Some(next)
    ensures slot.None? ==> forall i :: 0 <= i < |table| ==> table[i] != Some(next)
  {
    for i := 0 to |table|
      invariant forall k :: 0 <= k < i ==> table[k] != Some(next)
    {
      if table[i] == Some(next) { return Some(i); }
    }
    slot := None;
  }

  class NodeMain {
    var nextNodes: Tables
    var pending: seq<Names>
    var siblings: seq<seq<nat>>
    var owners: seq<Option<nat>>
    var declared: map<string, nat>
    ghost var clique: seq<nat>

    ghost predicate Valid()
      reads this
    {
      && |nextNodes| == |clique| && Cliques(siblings, clique) && SameSizes(nextNodes, clique)
      && Aligned(nextNodes, pending) && OwnersOk(owners, clique, pending) && Open(declared, nextNodes, pending)
      && forall name :: name in declared ==> declared[name] < |nextNodes|
    }

    // Siblings have identical tables.
    ghost predicate Agreed()
      reads this
    {
      SameTables(nextNodes, clique)
    }

    constructor ()
      ensures Valid() && Agreed() && nextNodes == [] && pending == [] && declared == map[]
    {
      nextNodes, pending, siblings, owners, declared, clique := [], [], [], [], map[], [];
    }

    // A new node in a clique of its own.
    method PushNode(table: Table, names: Names) returns (id: nat)
      requires Valid() && (names == [] || |names| == |table|) && OpenAt(table, names)
      modifies this
      ensures Valid() && id == |old(nextNodes)| && declared == old(declared) && siblings == old(siblings) + [[]]
      ensures nextNodes == old(nextNodes) + [table] && pending == old(pending) + [names] && clique == old(clique) + [id]
      ensures old(Agreed()) ==> Agreed()
    {
      hide Cliques, OpenAt, OwnersOk, Aligned, Open;
      id := |nextNodes|;
      Sizes();
      RootsBefore(owners, clique, pending);
      AloneClique(siblings, clique);
      AloneRest(nextNodes, pending, owners, clique, declared, table, names);
      siblings, owners, clique := siblings + [[]], owners + [None], clique + [id];
      nextNodes, pending := nextNodes + [table], pending + [names];
    }

    // register_function_declared for a node with its own next slots
    method RegisterNext(name: string, nextCount: nat, initial: seq<nat>, nextNames: Option<seq<string>>)
      returns (r: Result<nat, GraphError>)
      requires Valid()
      modifies this
      ensures Valid() && (old(Agreed()) ==> Agreed())
      ensures r.Err? ==> nextNodes == old(nextNodes) && pending == old(pending) && declared == old(declared)
      ensures r.Ok? <==> Registrable(old(declared), |old(nextNodes)|, name, nextCount, initial, nextNames)
      ensures r.Ok? ==>
                && r.value == |old(nextNodes)| && declared == old(declared)[name := r.value]
                && clique == old(clique) + [r.value] && siblings == old(siblings) + [[]]
                && nextNodes == old(nextNodes) + [FirstTable(nextCount, initial)]
                && pending == old(pending) + [FirstNames(nextNames)]
      ensures r.Ok? ==>
                && |nextNodes[r.value]| == nextCount && (nextNames.None? ==> pending[r.value] == [])
                && (initial == [] ==> forall k :: 0 <= k < nextCount ==> nextNodes[r.value][k] == None)
                && (initial != [] ==>
                      |initial| == nextCount && forall k :: 0 <= k < nextCount ==>
                          nextNodes[r.value][k] == Some(initial[k]))
                && (nextNames.Some? ==>
                      |pending[r.value]| == |nextNames.value| == nextCount && forall k :: 0 <= k < nextCount ==>
                          pending[r.value][k] == Some(nextNames.value[k]))
      ensures r.Err? ==> Unregistrable(declared, |nextNodes|, name, nextCount, initial, nextNames, r.error)
    {
      hide Cliques, SameTables, SameSizes, OwnersOk, Aligned, OpenAt;
      if |initial| > U16_MAX + 1 { return Err(NodeNextCountOverflow(|initial|)); }
      if nextNames.Some? {
        if initial != [] { return Err(NamedNextWithResolvedTargets); }
        if |nextNames.value| != nextCount { return Err(NamedNextCountMismatch(nextCount, |nextNames.value|)); }
      } else {
        for i := 0 to |initial|
          invariant forall k :: 0 <= k < i ==> initial[k] < |nextNodes|
        {
          if initial[i] >= |nextNodes| { return Err(NodeNotRegistered(initial[i])); }
        }
        if initial != [] && nextCount != |initial| { return Err(InitialNextCountMismatch(nextCount, |initial|)); }
      }
      if name in declared { return Err(NodeNameAlreadyRegistered(name)); }
      FirstOpen(nextCount, initial, nextNames);
      var id := PushNode(FirstTable(nextCount, initial), FirstNames(nextNames));
      declared := declared[name := id];
      r := Ok(id);
    }

    // register_function_declared for a sibling
    method RegisterSibling(name: string, siblingOf: string) returns (r: Result<nat, GraphError>)
      requires Valid()
      modifies this
      ensures Valid() && (old(Agreed()) ==> Agreed())
      ensures r.Err? ==> nextNodes == old(nextNodes) && pending == old(pending) && declared == old(declared)
      ensures r.Err? <==> name in old(declared) || siblingOf !in old(declared)
      ensures r.Err? ==>
                r.error == if name in declared then NodeNameAlreadyRegistered(name)
                else SiblingOwnerNotRegistered(name, siblingOf)
      ensures r.Ok? ==>
                && r.value == |old(nextNodes)| && declared == old(declared)[name := r.value]
                && nextNodes == old(nextNodes) + [old(nextNodes)[old(declared)[siblingOf]]]
                && pending == old(pending) + [[]]
                && clique == old(clique) + [old(clique)[old(declared)[siblingOf]]]
    {
      hide Cliques, SameTables, SameSizes, OwnersOk, Aligned, Open, Distinct;
      if name in declared { return Err(NodeNameAlreadyRegistered(name)); }
      if siblingOf !in declared { return Err(SiblingOwnerNotRegistered(name, siblingOf)); }
      var owner := declared[siblingOf];
      var id := |nextNodes|;
      Sizes();
      var group := Group(owner);
      JoinedSame(nextNodes, clique, owner);
      JoinedRest(nextNodes, pending, owners, clique, owner);
      JoinedOpen(nextNodes, pending, declared, owner, name);
      nextNodes, pending, owners := nextNodes + [nextNodes[owner]], pending + [[]], owners + [Some(owner)];
      siblings := LinkEach(group, id, siblings + [[]]);
      JoinedClique(old(siblings), siblings, clique, owner, group);
      clique := clique + [clique[owner]];
      declared := declared[name := id];
      r := Ok(id);
    }

    // resolve_named_next_nodes: the owners resolve their names, then every sibling takes over the table of its owner.
    // A failure stops before the siblings follow, at name `i` of node `k`.
    method Resolve() returns (r: Result<(), GraphError>, ghost k: nat, ghost i: nat)
      requires Valid()
      modifies this`nextNodes, this`pending
      ensures Valid() && |pending| == |old(pending)| == |siblings|
      ensures r.Err? <==> exists s :: 0 <= s < |old(pending)| && Unresolvable(declared, old(pending)[s])
      ensures r.Ok? ==> Agreed() && Followed(declared, old(nextNodes), old(pending), nextNodes, pending, clique)
      ensures r.Err? ==> r.error == NamedNextFallbackMissing && FailsAt(declared, old(pending), k, i)
      ensures r.Err? ==> StoppedAt(declared, old(nextNodes), old(pending), k, i, nextNodes, pending)
      ensures r.Err? ==>
                (nextNodes == old(nextNodes) <==> forall s :: 0 <= s < |old(pending)| ==>
                 !Touched(old(pending), k, i, s))
      ensures r.Err? && old(Agreed()) ==>
                (Agreed() <==> forall s :: 0 <= s < |old(pending)| && Touched(old(pending), k, i, s) ==>
                 siblings[s] == [])
    {
      hide Cliques, SameTables, SameSizes, Aligned, OwnersOk, Open, Unresolvable, AllResolved, StoppedAt, FailsAt;
      hide Touched;
      Sizes();
      ghost var tables0, pending0 := nextNodes, pending;
      var all;
      all, k, i := ResolveAll(declared, nextNodes, pending);
      if all.Err? {
        nextNodes, pending := all.error.0, all.error.1;
        StoppedRest(declared, tables0, pending0, k, i, nextNodes, pending, owners, clique);
        StoppedSizes(declared, tables0, pending0, k, i, nextNodes, pending);
        StoppedUnchanged(declared, tables0, pending0, k, i, nextNodes, pending);
        if SameTables(tables0, clique) {
          StoppedAgreement(declared, tables0, pending0, k, i, nextNodes, pending, owners, clique, siblings);
        }
        return Err(NamedNextFallbackMissing), k, i;
      }
      RootsFirst(owners, clique, pending);
      ResolvedSize(declared, nextNodes, pending, all.value.0, all.value.1);
      var tables := FollowOwners(all.value.0, owners, clique);
      ResolvedRest(declared, nextNodes, pending, all.value.0, all.value.1, tables, owners, clique);
      SameTablesSizes(tables, clique);
      ResolvedFollowed(declared, nextNodes, pending, all.value.0, all.value.1, tables, clique);
      nextNodes, pending := tables, all.value.1;
      r := Ok(());
    }

    // The members of a node's clique, the node last.
    method Group(node: nat) returns (group: seq<nat>)
      requires Valid() && node < |nextNodes|
      ensures Distinct(group) && forall s :: s in group <==> 0 <= s < |clique| && clique[s] == clique[node]
    {
      assert CliqueAt(siblings[node], clique, node);
      group := siblings[node] + [node];
      assert node !in siblings[node];
    }

    // Every member of the clique gets one more slot.
    method PushGroup(node: nat, next: nat)
      requires Valid() && node < |nextNodes|
      modifies this`nextNodes, this`pending
      ensures Valid() && (old(Agreed()) ==> Agreed())
      ensures Pushed(old(nextNodes), nextNodes, clique, clique[node], next) && NothingAwaited(old(pending), pending)
    {
      hide Cliques, SameTables, SameSizes, OwnersOk, Aligned, Open, Distinct;
      Sizes();
      var group := Group(node);
      CliqueSizes(node);
      nextNodes, pending := PushEach(group, next, nextNodes, pending);
      PushedSame(old(nextNodes), nextNodes, clique, clique[node], next);
      PushedRest(old(nextNodes), nextNodes, old(pending), pending, owners, clique, declared, clique[node], next);
    }

    lemma Sizes()
      requires Valid()
      ensures |pending| == |nextNodes| == |siblings| == |owners| == |clique|
    {
    }

    // The tables of a clique agree with its pending names.
    lemma CliqueSizes(node: nat)
      requires Valid() && node < |nextNodes|
      ensures forall s :: 0 <= s < |clique| && clique[s] == clique[node] ==> |nextNodes[s]| == |nextNodes[node]|
      ensures forall s :: 0 <= s < |clique| && clique[s] == clique[node] ==>
                pending[s] == [] || |pending[s]| == |nextNodes[node]|
    {
    }

    // One edge of a batch: the slot that already leads to `next`, or a new one for the whole clique.
    method AddOne(node: nat, next: nat) returns (r: Result<nat, GraphError>)
      requires Valid() && node < |nextNodes| && next < |nextNodes| && SlotFits(nextNodes[node], next)
      modifies this`nextNodes, this`pending
      ensures Valid() && (old(Agreed()) ==> Agreed())
      ensures Extends(old(nextNodes), nextNodes) && NothingAwaited(old(pending), pending)
      ensures r.Ok? <==> HasRoom(old(nextNodes)[node], next)
      ensures r.Ok? ==>
                && nextNodes == WithEdge(old(nextNodes), clique, (node, next))
                && LeadsTo(nextNodes, node, r.value, next) && r.value <= U16_MAX
      ensures r.Ok? ==>
                if Some(next) in old(nextNodes)[node] then nextNodes == old(nextNodes)
                else r.value == |old(nextNodes)[node]| && Pushed(old(nextNodes), nextNodes, clique, clique[node], next)
      ensures r.Err? <==> Some(next) !in old(nextNodes)[node] && |old(nextNodes)[node]| >= 65536
      ensures r.Err? ==> r.error == NodeNextCountOverflow(|old(nextNodes)[node]|)
    {
      hide Cliques, SameTables, SameSizes, OwnersOk, Aligned, Open;
      AwaitedSelf(pending);
      var found := Position(nextNodes[node], next);
      if found.Some? { return Ok(found.value); }
      var slot := |nextNodes[node]|;
      if slot > U16_MAX { return Err(NodeNextCountOverflow(slot)); }
      PushGroup(node, next);
      assert nextNodes == WithEdge(old(nextNodes), clique, (node, next));
      r := Ok(slot);
    }

    // The second loop of add_node_next_slots: edge after edge, until one finds no room.
    method AddEach(edges: seq<(nat, nat)>) returns (r: Result<seq<nat>, GraphError>)
      requires Valid() && InRange(edges, |nextNodes|) && SlotsFit(nextNodes, edges)
      modifies this`nextNodes, this`pending
      ensures Valid() && |nextNodes| == |old(nextNodes)| && (old(Agreed()) ==> Agreed())
      ensures r.Ok? <==> RoomFor(old(nextNodes), clique, edges)
      ensures r.Ok? ==>
                Added(old(nextNodes), nextNodes, clique, edges, r.value) && NothingAwaited(old(pending), pending)
      ensures r.Err? ==> Overflown(old(nextNodes), clique, edges, r.error)
    {
      hide Cliques, SameTables, SameSizes, OwnersOk, Aligned, Open, NothingAwaited, Extends, WithEdge, HasRoom;
      hide LeadsTo, SlotFits;
      ExtendsSelf(nextNodes);
      AwaitedSelf(pending);
      var slots: seq<nat> := [];
      for k := 0 to |edges|
        invariant Valid() && InRange(edges[..k], |old(nextNodes)|) && NothingAwaited(old(pending), pending)
        invariant (old(Agreed()) ==> Agreed()) && SlotsFit(nextNodes, edges)
        invariant Added(old(nextNodes), nextNodes, clique, edges[..k], slots)
                  && RoomFor(old(nextNodes), clique, edges[..k])
      {
        ghost var before, names := nextNodes, pending;
        assert edges[..k + 1] == edges[..k] + [edges[k]];
        RoomStep(old(nextNodes), clique, edges[..k], edges[k]);
        var one := AddOne(edges[k].0, edges[k].1);
        if one.Err? {
          RoomPrefix(old(nextNodes), clique, edges, k + 1);
          assert FullAt(old(nextNodes), clique, edges, k, one.error.count);
          return Err(one.error);
        }
        AwaitedMore(old(pending), names, pending);
        FitsMore(before, clique, edges, k);
        ExtendsLead(before, nextNodes, old(nextNodes), edges[..k], slots);
        LeadMore(nextNodes, edges[..k], slots, edges[k], one.value);
        slots := slots + [one.value];
      }
      assert edges[..|edges|] == edges;
      r := Ok(slots);
    }

    // add_node_next_slots: either every edge has its slot, or nothing changed.
    method AddNextSlots(edges: seq<(nat, nat)>, shared: seq<(nat, nat)>)
      returns (r: Result<(seq<nat>, bool), GraphError>)
      requires Valid() && SearchedFit(nextNodes, edges) && forall g :: g in shared ==> g.0 < g.1 <= |edges|
      modifies this`nextNodes, this`pending
      ensures Valid() && (old(Agreed()) ==> Agreed())
      ensures r.Err? ==> nextNodes == old(nextNodes) && pending == old(pending)
      ensures r.Err? ==> Refused(old(nextNodes), clique, edges, shared, r.error)
      ensures r.Ok? ==>
                && InRange(edges, |old(nextNodes)|) && RoomFor(old(nextNodes), clique, edges)
                && Added(old(nextNodes), nextNodes, clique, edges, r.value.0) && NothingAwaited(old(pending), pending)
                && SharedOk(r.value.0, shared) && (r.value.1 <==> nextNodes != old(nextNodes))
    {
      hide Cliques, SameTables, SameSizes, OwnersOk, Aligned, Open, NothingAwaited, Extends, LeadsTo, WithEdges;
      hide RoomFor, InRange, SlotsFit, SearchedFit;
      AwaitedSelf(pending);
      var existing := ExistingSlots(nextNodes, clique, edges);
      if existing.Err? { return Err(existing.error); }
      if existing.value.Some? {
        var mismatch := CheckShared(edges, existing.value.value, shared);
        if mismatch.Some? {
          assert Refused(nextNodes, clique, edges, shared, mismatch.value);
          return Err(mismatch.value);
        }
        return Ok((existing.value.value, false));
      }
      var tables, names := nextNodes, pending;
      AllSearched(nextNodes, edges);
      var slots := AddEach(edges);
      if slots.Err? {
        nextNodes, pending := tables, names;
        return Err(slots.error);
      }
      var mismatch := CheckShared(edges, slots.value, shared);
      if mismatch.Some? {
        nextNodes, pending := tables, names;
        return Err(mismatch.value);
      }
      r := Ok((slots.value, nextNodes != tables));
    }

    // set_node_next_slot
    method SetNextSlot(node: nat, slot: nat, next: nat) returns (r: Result<bool, GraphError>)
      requires Valid()
      modifies this`nextNodes, this`pending
      ensures Valid() && (old(Agreed()) ==> Agreed())
      ensures r.Err? ==>
                && nextNodes == old(nextNodes) && pending == old(pending)
                && if node >= |nextNodes| then r.error == NodeNotRegistered(node)
                   else slot >= |nextNodes[node]| && r.error == NodeNextSlotOutOfRange(node, slot, |nextNodes[node]|)
      ensures r.Ok? ==>
                && node < |nextNodes| && slot < |old(nextNodes)[node]|
                && Written(old(nextNodes), nextNodes, clique, clique[node], slot, next)
                && Forgotten(old(pending), pending, clique, clique[node], slot)
                && (r.value <==> nextNodes != old(nextNodes))
    {
      hide Cliques, SameTables, SameSizes, OwnersOk, Aligned, Open, Distinct, Written, Forgotten;
      if node >= |nextNodes| { return Err(NodeNotRegistered(node)); }
      if slot >= |nextNodes[node]| { return Err(NodeNextSlotOutOfRange(node, slot, |nextNodes[node]|)); }
      Sizes();
      CliqueSizes(node);
      var group := Group(node);
      assert forall k :: 0 <= k < |group| ==> group[k] in group;
      var changed := AnyDiffers(group, slot, next, nextNodes);
      nextNodes, pending := WriteEach(group, slot, next, nextNodes, pending);
      WrittenIs(old(nextNodes), nextNodes, old(pending), pending, clique, clique[node], group, slot, next);
      WrittenSame(old(nextNodes), nextNodes, clique, clique[node], slot, next);
      WrittenRest(old(nextNodes), nextNodes, old(pending), pending, owners, clique, declared, clique[node], slot, next);
      WrittenChanges(old(nextNodes), nextNodes, clique, clique[node], group, slot, next);
      r := Ok(changed);
    }
  }

  // ---- a new member

  lemma AloneClique(siblings: seq<seq<nat>>, clique: seq<nat>)
    requires Cliques(siblings, clique) && forall s :: 0 <= s < |clique| ==> clique[s] <= s
    ensures Cliques(siblings + [[]], clique + [|clique|])
  {
    var more, clique' := siblings + [[]], clique + [|clique|];
    forall t | 0 <= t < |more| ensures CliqueAt(more[t], clique', t) {
      if t < |siblings| { assert CliqueAt(siblings[t], clique, t); }
    }
  }

  lemma RootsBefore(owners: seq<Option<nat>>, clique: seq<nat>, pending: seq<Names>)
    requires OwnersOk(owners, clique, pending)
    ensures forall s :: 0 <= s < |clique| ==> clique[s] <= s
  {
    RootsFirst(owners, clique, pending);
    forall s | 0 <= s < |clique| ensures clique[s] <= s {
      assert RootOk(owners, clique, s);
    }
  }

  lemma AloneRest(tables: Tables, pending: seq<Names>, owners: seq<Option<nat>>, clique: seq<nat>,
                  declared: map<string, nat>,
                  table: Table, names: Names)
    requires Aligned(tables, pending) && OwnersOk(owners, clique, pending) && |tables| == |clique|
    requires Open(declared, tables, pending) && (names == [] || |names| == |table|) && OpenAt(table, names)
    ensures Aligned(tables + [table], pending + [names])
    ensures OwnersOk(owners + [None], clique + [|tables|], pending + [names])
    ensures Open(declared, tables + [table], pending + [names])
  {
    hide OpenAt;
  }

  lemma JoinedSame(tables: Tables, clique: seq<nat>, owner: nat)
    requires owner < |tables| == |clique|
    ensures SameTables(tables, clique) ==> SameTables(tables + [tables[owner]], clique + [clique[owner]])
    ensures SameSizes(tables, clique) ==> SameSizes(tables + [tables[owner]], clique + [clique[owner]])
  {
  }

  lemma JoinedOpen(tables: Tables, pending: seq<Names>, declared: map<string, nat>, owner: nat, name: string)
    requires Open(declared, tables, pending) && owner < |tables|
    ensures Open(declared[name := |tables|], tables + [tables[owner]], pending + [[]])
  {
    hide OpenAt;
    NothingOpen(tables[owner]);
  }

  lemma JoinedRest(tables: Tables, pending: seq<Names>, owners: seq<Option<nat>>, clique: seq<nat>, owner: nat)
    requires Aligned(tables, pending) && OwnersOk(owners, clique, pending) && owner < |tables| == |clique|
    ensures Aligned(tables + [tables[owner]], pending + [[]])
    ensures OwnersOk(owners + [Some(owner)], clique + [clique[owner]], pending + [[]])
  {
  }

  lemma JoinedClique(siblings: seq<seq<nat>>, siblings': seq<seq<nat>>, clique: seq<nat>, owner: nat, group: seq<nat>)
    requires Cliques(siblings, clique) && owner < |clique| && Distinct(group)
    requires forall s :: s in group <==> 0 <= s < |clique| && clique[s] == clique[owner]
    requires |siblings'| == |siblings| + 1 && siblings'[|siblings|] == group
    requires forall s :: 0 <= s < |siblings| ==> siblings'[s] == if s in group then siblings[s] + [|siblings|]
             else siblings[s]
    ensures Cliques(siblings', clique + [clique[owner]])
  {
    hide CliqueAt, Distinct;
    forall t | 0 <= t < |siblings'| ensures CliqueAt(siblings'[t], clique + [clique[owner]], t) {
      if t < |siblings| {
        JoinedOld(siblings[t], clique, owner, t);
      } else {
        JoinedNew(group, clique, owner);
      }
    }
  }

  lemma JoinedOld(list: seq<nat>, clique: seq<nat>, owner: nat, t: nat)
    requires t < |clique| && owner < |clique| && CliqueAt(list, clique, t)
    ensures CliqueAt(if clique[t] == clique[owner] then list + [|clique|] else list, clique + [clique[owner]], t)
  {
    assert |clique| !in list;
  }

  lemma JoinedNew(group: seq<nat>, clique: seq<nat>, owner: nat)
    requires owner < |clique| && Distinct(group)
    requires forall s :: s in group <==> 0 <= s < |clique| && clique[s] == clique[owner]
    ensures CliqueAt(group, clique + [clique[owner]], |clique|)
  {
  }

  // The new node and every member of the group learn of each other.
  method LinkEach(group: seq<nat>, id: nat, siblings: seq<seq<nat>>) returns (r: seq<seq<nat>>)
    requires Distinct(group) && id < |siblings| && siblings[id] == [] && forall s :: s in group ==>
               s < |siblings| && s != id
    ensures |r| == |siblings| && r[id] == group
    ensures forall s :: 0 <= s < |siblings| && s != id ==> r[s] == if s in group then siblings[s] + [id]
            else siblings[s]
  {
    r := siblings;
    assert group[..0] == [];
    for k := 0 to |group|
      invariant |r| == |siblings| && r[id] == group[..k]
      invariant forall s :: 0 <= s < |siblings| && s != id ==> r[s] == if s in group[..k] then siblings[s] + [id]
                else siblings[s]
    {
      var s := group[k];
      assert s in group && s !in group[..k] && group[..k + 1] == group[..k] + [s];
      r := r[s := r[s] + [id]];
      r := r[id := r[id] + [s]];
    }
    assert group[..|group|] == group;
  }

  // ---- loops over a group

  method PushEach(group: seq<nat>, next: nat, tables: Tables, pending: seq<Names>)
    returns (tables': Tables, pending': seq<Names>)
    requires Distinct(group) && |tables| == |pending| && forall s :: s in group ==> s < |tables|
    ensures |tables'| == |pending'| == |tables|
    ensures forall s :: 0 <= s < |tables| ==> tables'[s] == if s in group then tables[s] + [Some(next)] else tables[s]
    ensures forall s :: 0 <= s < |tables| ==> pending'[s] == if s in group && pending[s] != []
            then pending[s] + [None] else pending[s]
  {
    tables', pending' := tables, pending;
    for k := 0 to |group|
      invariant |tables'| == |pending'| == |tables|
      invariant forall s :: 0 <= s < |tables| ==> tables'[s] == if s in group[..k] then tables[s] + [Some(next)]
                else tables[s]
      invariant forall s :: 0 <= s < |tables| ==> pending'[s] == if s in group[..k] && pending[s] != []
                then pending[s] + [None] else pending[s]
    {
      var s := group[k];
      assert s in group && s !in group[..k] && group[..k + 1] == group[..k] + [s];
      if pending'[s] != [] {
        pending' := pending'[s := pending'[s] + [None]];
      }
      tables' := tables'[s := tables'[s] + [Some(next)]];
    }
    assert group[..|group|] == group;
  }

  method WriteEach(group: seq<nat>, slot: nat, next: nat, tables: Tables, pending: seq<Names>)
    returns (tables': Tables, pending': seq<Names>)
    requires Distinct(group) && |tables| == |pending|
    requires forall s :: s in group ==>
               s < |tables| && slot < |tables[s]| && (pending[s] == [] || |pending[s]| == |tables[s]|)
    ensures |tables'| == |pending'| == |tables|
    ensures forall s :: 0 <= s < |tables| ==> if s in group then tables'[s] == tables[s][slot := Some(next)]
            else tables'[s] == tables[s]
    ensures forall s :: 0 <= s < |tables| ==> if s in group && pending[s] != []
            then pending'[s] == pending[s][slot := None] else pending'[s] == pending[s]
  {
    tables', pending' := tables, pending;
    for k := 0 to |group|
      invariant |tables'| == |pending'| == |tables|
      invariant forall s :: 0 <= s < |tables| ==> if s in group[..k]
                then s in group && tables'[s] == tables[s][slot := Some(next)] else tables'[s] == tables[s]
      invariant forall s :: 0 <= s < |tables| ==>
                  if s in group[..k] && pending[s] != [] then s in group && pending'[s] == pending[s][slot := None]
                      else pending'[s] == pending[s]
    {
      var s := group[k];
      assert s in group && s !in group[..k] && group[..k + 1] == group[..k] + [s];
      if pending'[s] != [] {
        pending' := pending'[s := pending'[s][slot := None]];
      }
      tables' := tables'[s := tables'[s][slot := Some(next)]];
    }
    assert group[..|group|] == group;
  }

  method AnyDiffers(group: seq<nat>, slot: nat, next: nat, tables: Tables) returns (changed: bool)
    requires forall i :: 0 <= i < |group| ==> group[i] < |tables| && slot < |tables[group[i]]|
    ensures changed <==> exists s :: s in group && tables[s][slot] != Some(next)
  {
    changed := false;
    for k := 0 to |group|
      invariant changed <==> exists i :: 0 <= i < k && tables[group[i]][slot] != Some(next)
    {
      assert group[k] in group;
      changed := changed || tables[group[k]][slot] != Some(next);
    }
  }

  lemma WrittenChanges(tables: Tables, tables': Tables, clique: seq<nat>, c: nat, group: seq<nat>, slot: nat, next: nat)
    requires |tables| == |clique| && Written(tables, tables', clique, c, slot, next)
    requires forall s :: s in group <==> 0 <= s < |clique| && clique[s] == c
    ensures forall s :: s in group ==> s < |tables| && slot < |tables[s]|
    ensures tables' != tables <==> exists s :: s in group && tables[s][slot] != Some(next)
  {
    if s :| s in group && tables[s][slot] != Some(next) {
      assert tables'[s][slot] == Some(next);
    } else {
      assert forall s :: 0 <= s < |tables| ==> tables'[s] == tables[s];
    }
  }

  lemma PushedRest(tables: Tables, tables': Tables, pending: seq<Names>, pending': seq<Names>, owners: seq<Option<nat>>,
                   clique: seq<nat>, declared: map<string, nat>, c: nat, next: nat)
    requires |tables| == |clique| && Aligned(tables, pending) && OwnersOk(owners, clique, pending)
    requires Open(declared, tables, pending) && Pushed(tables, tables', clique, c, next) && |pending'| == |pending|
    requires forall s :: 0 <= s < |pending| ==>
               pending'[s] == if clique[s] == c && pending[s] != [] then pending[s] + [None] else pending[s]
    ensures Aligned(tables', pending') && OwnersOk(owners, clique, pending') && Open(declared, tables', pending')
  {
    forall s | 0 <= s < |pending| && OpenAt(tables[s], pending[s]) ensures OpenAt(tables'[s], pending'[s]) {
      assert tables[s] <= tables'[s];
    }
  }

  ghost predicate Written(tables: Tables, tables': Tables, clique: seq<nat>, c: nat, slot: nat, next: nat)
    requires |tables| == |clique|
  {
    |tables'| == |tables| && forall s :: 0 <= s < |tables| ==>
      if clique[s] == c then slot < |tables[s]| && tables'[s] == tables[s][slot := Some(next)]
          else tables'[s] == tables[s]
  }

  lemma WrittenIs(tables: Tables, tables': Tables, pending: seq<Names>, pending': seq<Names>, clique: seq<nat>, c: nat,
                  group: seq<nat>, slot: nat, next: nat)
    requires |tables| == |pending| == |clique| == |tables'| == |pending'|
    requires forall s :: s in group <==> 0 <= s < |clique| && clique[s] == c
    requires forall s :: s in group ==> slot < |tables[s]| && (pending[s] == [] || |pending[s]| == |tables[s]|)
    requires forall s :: 0 <= s < |tables| ==>
               if s in group then tables'[s] == tables[s][slot := Some(next)] else tables'[s] == tables[s]
    requires forall s :: 0 <= s < |tables| ==>
               if s in group && pending[s] != [] then pending'[s] == pending[s][slot := None]
                   else pending'[s] == pending[s]
    ensures Written(tables, tables', clique, c, slot, next) && Forgotten(pending, pending', clique, c, slot)
  {
    forall s | 0 <= s < |tables|
      ensures if clique[s] == c then s in group && slot < |tables[s]| else s !in group
    {
    }
  }

  lemma WrittenSame(tables: Tables, tables': Tables, clique: seq<nat>, c: nat, slot: nat, next: nat)
    requires |tables| == |clique| && Written(tables, tables', clique, c, slot, next)
    ensures SameTables(tables, clique) ==> SameTables(tables', clique)
    ensures SameSizes(tables, clique) ==> SameSizes(tables', clique)
  {
  }

  lemma WrittenRest(tables: Tables, tables': Tables, pending: seq<Names>, pending': seq<Names>,
                    owners: seq<Option<nat>>,
                    clique: seq<nat>, declared: map<string, nat>, c: nat, slot: nat, next: nat)
    requires |tables| == |clique| && Aligned(tables, pending) && OwnersOk(owners, clique, pending)
    requires Open(declared, tables, pending) && Written(tables, tables', clique, c, slot, next)
    requires Forgotten(pending, pending', clique, c, slot)
    ensures Aligned(tables', pending') && OwnersOk(owners, clique, pending') && Open(declared, tables', pending')
  {
    forall s | 0 <= s < |pending| && OpenAt(tables[s], pending[s]) ensures OpenAt(tables'[s], pending'[s]) {
    }
  }

  // ---- batches of edges

  // Earlier slots keep their targets.
  ghost predicate Extends(tables: Tables, tables': Tables) {
    |tables'| == |tables| && forall s :: 0 <= s < |tables| ==> tables[s] <= tables'[s]
  }

  // The first slot of a node that leads to the target.
  ghost predicate LeadsTo(tables: Tables, node: nat, slot: nat, next: nat) {
    && node < |tables| && slot < |tables[node]| && tables[node][slot] == Some(next)
    && forall i :: 0 <= i < slot ==> tables[node][i] != Some(next)
  }

  ghost predicate EdgesLead(tables: Tables, edges: seq<(nat, nat)>, slots: seq<nat>) {
    |slots| == |edges| && forall e :: 0 <= e < |edges| ==> LeadsTo(tables, edges[e].0, slots[e], edges[e].1)
  }

  // Slots that were added wait for no names; the names that waited still do.
  ghost predicate NothingAwaited(pending: seq<Names>, pending': seq<Names>) {
    |pending'| == |pending| && forall s :: 0 <= s < |pending| ==> AwaitsSame(pending[s], pending'[s])
  }

  ghost predicate AwaitsSame(names: Names, names': Names) {
    names <= names' && (names == [] ==> names' == []) && forall i :: |names| <= i < |names'| ==> names'[i] == None
  }

  // The slot of a clique no longer waits for a name.
  ghost predicate Forgotten(pending: seq<Names>, pending': seq<Names>, clique: seq<nat>, c: nat, slot: nat) {
    && |pending'| == |pending| == |clique|
    && forall s :: 0 <= s < |pending| ==>
         if clique[s] == c && pending[s] != [] then slot < |pending[s]| && pending'[s] == pending[s][slot := None]
         else pending'[s] == pending[s]
  }

  ghost predicate InRange(edges: seq<(nat, nat)>, nodes: nat) {
    forall e :: 0 <= e < |edges| ==> edges[e].0 < nodes && edges[e].1 < nodes
  }

  // The target is not only to be found beyond 16 bits.
  ghost predicate SlotFits(table: Table, next: nat) {
    Some(next) in table ==> exists i :: 0 <= i <= U16_MAX && i < |table| && table[i] == Some(next)
  }

  ghost predicate SlotsFit(tables: Tables, edges: seq<(nat, nat)>) {
    forall e :: 0 <= e < |edges| && edges[e].0 < |tables| ==> SlotFits(tables[edges[e].0], edges[e].1)
  }

  // The same for the edges before the first that names an unregistered node: later ones are never looked for.
  ghost predicate SearchedFit(tables: Tables, edges: seq<(nat, nat)>) {
    forall e :: 0 <= e < |edges| && InRange(edges[..e + 1], |tables|) ==>
                  edges[e].0 < |tables| && SlotFits(tables[edges[e].0], edges[e].1)
  }

  lemma AllSearched(tables: Tables, edges: seq<(nat, nat)>)
    requires SearchedFit(tables, edges) && InRange(edges, |tables|)
    ensures SlotsFit(tables, edges)
  {
    hide SlotFits;
    forall e | 0 <= e < |edges| ensures SlotFits(tables[edges[e].0], edges[e].1) {
      assert InRange(edges[..e + 1], |tables|);
    }
  }

  ghost predicate HasRoom(table: Table, next: nat) {
    Some(next) in table || |table| <= U16_MAX
  }

  // The tables once an edge is there: a missing one is a new last slot of every member of the clique.
  ghost function WithEdge(tables: Tables, clique: seq<nat>, edge: (nat, nat)): Tables
    requires edge.0 < |tables| == |clique|
  {
    if Some(edge.1) in tables[edge.0] then tables
    else seq(|tables|, s requires 0 <= s < |tables| =>
                         if clique[s] == clique[edge.0] then tables[s] + [Some(edge.1)] else tables[s])
  }

  ghost function WithEdges(tables: Tables, clique: seq<nat>, edges: seq<(nat, nat)>): (r: Tables)
    requires |tables| == |clique| && InRange(edges, |tables|)
    ensures |r| == |tables|
  {
    if edges == [] then tables
        else WithEdge(WithEdges(tables, clique, edges[..|edges| - 1]), clique, edges[|edges| - 1])
  }

  // No edge of the batch asks for a slot beyond 16 bits.
  ghost predicate RoomFor(tables: Tables, clique: seq<nat>, edges: seq<(nat, nat)>)
    requires |tables| == |clique| && InRange(edges, |tables|)
  {
    edges != [] ==>
      var n := |edges| - 1;
      && RoomFor(tables, clique, edges[..n])
      && HasRoom(WithEdges(tables, clique, edges[..n])[edges[n].0], edges[n].1)
  }

  // A batch has been added: nothing but its missing edges, and each edge has its slot.
  ghost predicate Added(tables: Tables, tables': Tables, clique: seq<nat>, edges: seq<(nat, nat)>, slots: seq<nat>)
    requires |tables| == |clique| && InRange(edges, |tables|)
  {
    tables' == WithEdges(tables, clique, edges) && Extends(tables, tables') && EdgesLead(tables', edges, slots)
  }

  // Edge k is missing, and the edges before it leave its node `count` slots, none of them free for 16 bits.
  ghost predicate FullAt(tables: Tables, clique: seq<nat>, edges: seq<(nat, nat)>, k: nat, count: nat)
    requires |tables| == |clique| && InRange(edges, |tables|)
  {
    k < |edges| && InRange(edges[..k], |tables|) && RoomFor(tables, clique, edges[..k])
    && var table := WithEdges(tables, clique, edges[..k])[edges[k].0];
       Some(edges[k].1) !in table && count == |table| >= 65536
  }

  ghost predicate Overflown(tables: Tables, clique: seq<nat>, edges: seq<(nat, nat)>, error: GraphError)
    requires |tables| == |clique| && InRange(edges, |tables|)
  {
    error.NodeNextCountOverflow? && exists k :: FullAt(tables, clique, edges, k, error.count)
  }

  // Edge k is the first that names an unregistered node, its own end looked at first.
  ghost predicate UnknownAt(edges: seq<(nat, nat)>, nodes: nat, k: nat, node: nat) {
    k < |edges| && InRange(edges[..k], nodes) && node >= nodes
    && (node == edges[k].0 || (edges[k].0 < nodes && node == edges[k].1))
  }

  // Why a batch is refused.
  ghost predicate Refused(tables: Tables, clique: seq<nat>, edges: seq<(nat, nat)>, shared: seq<(nat, nat)>,
                          error: GraphError)
    requires |tables| == |clique|
  {
    if error.NodeNotRegistered? then !InRange(edges, |tables|) && exists k :: UnknownAt(edges, |tables|, k, error.node)
    else
      && InRange(edges, |tables|)
      && if error.NodeNextCountOverflow?
         then !RoomFor(tables, clique, edges) && Overflown(tables, clique, edges, error)
         else
           && RoomFor(tables, clique, edges)
           && exists slots :: EdgesLead(WithEdges(tables, clique, edges), edges, slots)
                              && Mismatched(edges, slots, shared, error)
  }

  // A batch can be added or refused, not both: the slots are determined.
  lemma SlotsDetermined(tables: Tables, edges: seq<(nat, nat)>, slots: seq<nat>, others: seq<nat>)
    requires EdgesLead(tables, edges, slots) && EdgesLead(tables, edges, others)
    ensures slots == others
  {
    forall e | 0 <= e < |edges| ensures slots[e] == others[e] {
      assert LeadsTo(tables, edges[e].0, slots[e], edges[e].1) && LeadsTo(tables, edges[e].0, others[e], edges[e].1);
    }
  }

  lemma RoomStep(tables: Tables, clique: seq<nat>, edges: seq<(nat, nat)>, edge: (nat, nat))
    requires |tables| == |clique| && InRange(edges + [edge], |tables|)
    ensures InRange(edges, |tables|) && edge.0 < |tables| && edge.1 < |tables|
    ensures WithEdges(tables, clique, edges + [edge]) == WithEdge(WithEdges(tables, clique, edges), clique, edge)
    ensures RoomFor(tables, clique, edges + [edge]) <==>
            RoomFor(tables, clique, edges) && HasRoom(WithEdges(tables, clique, edges)[edge.0], edge.1)
  {
    hide WithEdge, HasRoom;
    var all := edges + [edge];
    assert all[..|all| - 1] == edges && all[|all| - 1] == edge;
    forall e | 0 <= e < |edges| ensures edges[e].0 < |tables| && edges[e].1 < |tables| {
      assert all[e] == edges[e];
    }
  }

  // Adding an edge that has room puts no target beyond 16 bits.
  lemma FitsMore(tables: Tables, clique: seq<nat>, edges: seq<(nat, nat)>, k: nat)
    requires |tables| == |clique| && InRange(edges, |tables|) && SlotsFit(tables, edges) && k < |edges|
    requires HasRoom(tables[edges[k].0], edges[k].1) && SameSizes(tables, clique)
    ensures SlotsFit(WithEdge(tables, clique, edges[k]), edges)
  {
    var tables' := WithEdge(tables, clique, edges[k]);
    forall e | 0 <= e < |edges| ensures SlotFits(tables'[edges[e].0], edges[e].1) {
      FitsOne(tables[edges[e].0], edges[e].1, edges[k].1);
      assert |tables'| == |tables|;
    }
  }

  lemma FitsOne(table: Table, next: nat, added: nat)
    requires SlotFits(table, next)
    ensures |table| <= U16_MAX ==> SlotFits(table + [Some(added)], next)
  {
    var table' := table + [Some(added)];
    if |table| <= U16_MAX && Some(next) in table' {
      if Some(next) in table {
        var i :| 0 <= i <= U16_MAX && i < |table| && table[i] == Some(next);
        assert table'[i] == Some(next);
      } else {
        assert table'[|table|] == Some(next);
      }
    }
  }

  lemma {:induction false} RoomPrefix(tables: Tables, clique: seq<nat>, edges: seq<(nat, nat)>, k: nat)
    requires |tables| == |clique| && InRange(edges, |tables|) && k <= |edges|
    ensures InRange(edges[..k], |tables|) && (RoomFor(tables, clique, edges) ==> RoomFor(tables, clique, edges[..k]))
    decreases |edges|
  {
    hide WithEdge, HasRoom;
    if k == |edges| {
      assert edges[..k] == edges;
    } else {
      RoomPrefix(tables, clique, edges[..|edges| - 1], k);
      assert edges[..|edges| - 1][..k] == edges[..k];
    }
  }

  lemma AwaitedSelf(pending: seq<Names>)
    ensures NothingAwaited(pending, pending)
  {
  }

  lemma AwaitedMore(first: seq<Names>, pending: seq<Names>, pending': seq<Names>)
    requires NothingAwaited(first, pending) && NothingAwaited(pending, pending')
    ensures NothingAwaited(first, pending')
  {
    forall s | 0 <= s < |first| ensures AwaitsSame(first[s], pending'[s]) {
      assert AwaitsSame(first[s], pending[s]) && AwaitsSame(pending[s], pending'[s]);
    }
  }

  lemma ExtendsSelf(tables: Tables)
    ensures Extends(tables, tables)
  {
  }

  lemma ExtendsLead(tables: Tables, tables': Tables, first: Tables, edges: seq<(nat, nat)>, slots: seq<nat>)
    requires Extends(tables, tables') && Extends(first, tables) && EdgesLead(tables, edges, slots)
    ensures EdgesLead(tables', edges, slots) && Extends(first, tables')
  {
    forall e | 0 <= e < |edges| ensures LeadsTo(tables', edges[e].0, slots[e], edges[e].1) {
      assert LeadsTo(tables, edges[e].0, slots[e], edges[e].1);
    }
  }

  lemma LeadMore(tables: Tables, edges: seq<(nat, nat)>, slots: seq<nat>, edge: (nat, nat), slot: nat)
    requires EdgesLead(tables, edges, slots) && LeadsTo(tables, edge.0, slot, edge.1)
    ensures EdgesLead(tables, edges + [edge], slots + [slot])
  {
    hide LeadsTo;
  }

  // The first loop of add_node_next_slots: the slots of the batch, when every edge is already there.
  method ExistingSlots(tables: Tables, ghost clique: seq<nat>, edges: seq<(nat, nat)>)
    returns (r: Result<Option<seq<nat>>, GraphError>)
    requires |tables| == |clique| && SearchedFit(tables, edges)
    ensures r.Ok? <==> InRange(edges, |tables|)
    ensures r.Err? ==> r.error.NodeNotRegistered? && exists k :: UnknownAt(edges, |tables|, k, r.error.node)
    ensures r.Ok? && r.value.Some? ==>
              RoomFor(tables, clique, edges) && Added(tables, tables, clique, edges, r.value.value)
  {
    hide HasRoom, RoomFor, WithEdges, LeadsTo, Extends, SlotFits;
    ExtendsSelf(tables);
    NoEdges(tables, clique);
    var slots: seq<nat> := [];
    var all := true;
    for k := 0 to |edges|
      invariant InRange(edges[..k], |tables|)
      invariant all ==> RoomFor(tables, clique, edges[..k]) && Added(tables, tables, clique, edges[..k], slots)
    {
      if edges[k].0 >= |tables| {
        assert UnknownAt(edges, |tables|, k, edges[k].0);
        return Err(NodeNotRegistered(edges[k].0));
      }
      if edges[k].1 >= |tables| {
        assert UnknownAt(edges, |tables|, k, edges[k].1);
        return Err(NodeNotRegistered(edges[k].1));
      }
      assert edges[..k + 1] == edges[..k] + [edges[k]];
      RoomStep(tables, clique, edges[..k], edges[k]);
      var found := Position(tables[edges[k].0], edges[k].1);
      if found.None? {
        all := false;
      } else {
        assert found.value <= U16_MAX by { FoundFits(tables[edges[k].0], edges[k].1, found.value); }
        if all {
          Present(tables, clique, edges[k], found.value);
          LeadMore(tables, edges[..k], slots, edges[k], found.value);
        }
        slots := slots + [found.value];
      }
    }
    assert edges[..|edges|] == edges;
    r := Ok(if all then Some(slots) else None);
  }

  lemma FoundFits(table: Table, next: nat, slot: nat)
    requires SlotFits(table, next) && slot < |table| && table[slot] == Some(next)
    requires forall i :: 0 <= i < slot ==> table[i] != Some(next)
    ensures slot <= U16_MAX
  {
  }

  lemma NoEdges(tables: Tables, clique: seq<nat>)
    requires |tables| == |clique|
    ensures InRange([], |tables|) && WithEdges(tables, clique, []) == tables && RoomFor(tables, clique, [])
            && EdgesLead(tables, [], [])
  {
  }

  lemma Present(tables: Tables, clique: seq<nat>, edge: (nat, nat), slot: nat)
    requires edge.0 < |tables| == |clique| && slot < |tables[edge.0]| && tables[edge.0][slot] == Some(edge.1)
    requires forall i :: 0 <= i < slot ==> tables[edge.0][i] != Some(edge.1)
    ensures WithEdge(tables, clique, edge) == tables && HasRoom(tables[edge.0], edge.1)
            && LeadsTo(tables, edge.0, slot, edge.1)
  {
  }

  // The edges of one shared range all have the same slot.
  ghost predicate OneSlot(slots: seq<nat>, lo: nat, hi: nat) {
    lo < hi <= |slots| && forall i :: lo <= i < hi ==> slots[i] == slots[lo]
  }

  ghost predicate SharedOk(slots: seq<nat>, shared: seq<(nat, nat)>) {
    forall g :: g in shared ==> OneSlot(slots, g.0, g.1)
  }

  // The mismatch reported is the first edge of the first range whose slot is not that of the range.
  ghost predicate Mismatched(edges: seq<(nat, nat)>, slots: seq<nat>, shared: seq<(nat, nat)>, error: GraphError) {
    |slots| == |edges| && exists k, i :: MismatchAt(edges, slots, shared, k, i, error)
  }

  ghost predicate MismatchAt(edges: seq<(nat, nat)>, slots: seq<nat>, shared: seq<(nat, nat)>, k: nat, i: nat,
                             error: GraphError)
    requires |slots| == |edges|
  {
    && k < |shared| && SharedOk(slots, shared[..k])
    && shared[k].0 < i < shared[k].1 && i < |slots| && OneSlot(slots, shared[k].0, i) && slots[i] != slots[shared[k].0]
    && error == NodeNextSlotMismatch(edges[i].0, edges[i].1, slots[i], slots[shared[k].0])
  }

  method CheckShared(edges: seq<(nat, nat)>, slots: seq<nat>, shared: seq<(nat, nat)>)
    returns (mismatch: Option<GraphError>)
    requires |slots| == |edges| && forall g :: g in shared ==> g.0 < g.1 <= |edges|
    ensures mismatch.None? <==> SharedOk(slots, shared)
    ensures mismatch.Some? ==> Mismatched(edges, slots, shared, mismatch.value)
  {
    for k := 0 to |shared|
      invariant SharedOk(slots, shared[..k])
    {
      var g := shared[k];
      assert g in shared;
      var expected := slots[g.0];
      for i := g.0 to g.1
        invariant forall j :: g.0 <= j < i ==> slots[j] == expected
      {
        if slots[i] != expected {
          mismatch := Some(NodeNextSlotMismatch(edges[i].0, edges[i].1, slots[i], expected));
          assert MismatchAt(edges, slots, shared, k, i, mismatch.value);
          return;
        }
      }
      assert shared[..k + 1] == shared[..k] + [g];
    }
    assert shared[..|shared|] == shared;
    mismatch := None;
  }

  // ---- a failed resolution

  // Node a waits for b, and s is a sibling of a.
  method WaitingPair() returns (graph: NodeMain)
    ensures fresh(graph) && graph.Valid() && graph.Agreed()
    ensures graph.nextNodes == [[None], [None]] && graph.clique == [0, 0] && graph.pending == [[Some("b")], []]
    ensures graph.declared == map["a" := 0, "s" := 1]
  {
    hide FirstTable, FirstNames, Cliques, SameTables, SameSizes, OwnersOk, Aligned, Open;
    Letters();
    Shortest("b");
    graph := new NodeMain();
    var a := graph.RegisterNext("a", 1, [], Some(["b"]));
    assert graph.nextNodes == [[None]] && graph.pending == [[Some("b")]] && graph.clique == [0];
    assert graph.declared == map["a" := 0];
    var s := graph.RegisterSibling("s", "a");
  }

  // Then b is registered, and c waits for a name that nobody has.
  method WaitingGraph() returns (graph: NodeMain)
    ensures fresh(graph) && graph.Valid() && graph.Agreed()
    ensures graph.nextNodes == [[None], [None], [], [None]] && graph.clique == [0, 0, 2, 3]
    ensures graph.pending == [[Some("b")], [], [], [Some("missing")]]
    ensures graph.declared == map["a" := 0, "s" := 1, "b" := 2, "c" := 3]
  {
    hide FirstTable, FirstNames, Cliques, SameTables, SameSizes, OwnersOk, Aligned, Open;
    Letters();
    Shortest("missing");
    graph := WaitingPair();
    var b := graph.RegisterNext("b", 0, [], None);
    assert graph.nextNodes == [[None], [None], []] && graph.pending == [[Some("b")], [], []]
           && graph.clique == [0, 0, 2];
    var c := graph.RegisterNext("c", 1, [], Some(["missing"]));
  }

  // Resolving fails at c after a has its target, so a and s disagree. Once the name is registered, resolving again
  // makes them agree.
  method FailedThenResolved() returns (graph: NodeMain, ghost split: Tables)
    ensures split == [[Some(2)], [None], [], [None]]
    ensures fresh(graph) && graph.Valid() && graph.Agreed()
    ensures graph.nextNodes == [[Some(2)], [Some(2)], [], [Some(4)], []]
  {
    hide FirstTable, FirstNames, Cliques, SameTables, SameSizes, OwnersOk, Aligned, Open, StoppedAt, Followed;
    hide FailsAt, Unresolvable, Touched;
    Shortest("missing");
    graph := WaitingGraph();
    ghost var names, pending := graph.declared, graph.pending;
    NobodyMissing(names, pending);
    var first, k, i := graph.Resolve();
    StopsAtMissing(names, pending, k, i, graph.nextNodes, graph.pending);
    split := graph.nextNodes;
    var m := graph.RegisterNext("missing", 0, [], None);
    ghost var more := graph.declared;
    ghost var tables, waits, clique := graph.nextNodes, graph.pending, graph.clique;
    assert tables == [[Some(2)], [None], [], [None], []] && clique == [0, 0, 2, 3, 4];
    assert waits == [[], [], [], [Some("missing")], []];
    AllKnown(more, waits);
    var again, k', i' := graph.Resolve();
    FollowedMissing(more, graph.nextNodes, graph.pending);
  }

  lemma Letters()
    ensures "a" != "b" && "a" != "c" && "a" != "s" && "b" != "c" && "b" != "s" && "c" != "s"
  {
    assert "a"[0] == 'a' && "b"[0] == 'b' && "c"[0] == 'c' && "s"[0] == 's';
  }

  lemma Shortest(name: string)
    ensures FirstTable(1, []) == [None] && FirstTable(0, []) == []
    ensures FirstNames(Some([name])) == [Some(name)] && FirstNames(None) == []
  {
  }

  ghost const WAITING: Tables := [[None], [None], [], [None]]

  lemma NobodyMissing(declared: map<string, nat>, pending: seq<Names>)
    requires pending == [[Some("b")], [], [], [Some("missing")]] && "missing" !in declared && "drop" !in declared
    ensures Unresolvable(declared, pending[3])
  {
    assert Hopeless(declared, pending[3], 0);
  }

  lemma StopsAtMissing(declared: map<string, nat>, pending: seq<Names>, k: nat, i: nat, tables': Tables,
                       pending': seq<Names>)
    requires pending == [[Some("b")], [], [], [Some("missing")]] && "b" in declared && FailsAt(declared, pending, k, i)
    requires StoppedAt(declared, WAITING, pending, k, i, tables', pending')
    ensures k == 3 && i == 0 && tables' == [[Some(declared["b"])], [None], [], [None]]
    ensures pending' == [[], [], [], [Some("missing")]]
  {
    assert Hopeless(declared, pending[k], i);
    assert |tables'| == |pending'| == 4;
    assert tables'[0] == [Some(declared["b"])] && pending'[0] == [];
    assert tables'[1] == [None] && pending'[1] == [];
    assert tables'[2] == [] && pending'[2] == [];
    assert tables'[3] == [None] && pending'[3] == [Some("missing")];
  }

  lemma AllKnown(declared: map<string, nat>, pending: seq<Names>)
    requires pending == [[], [], [], [Some("missing")], []] && "missing" in declared
    ensures forall s :: 0 <= s < |pending| ==> !Unresolvable(declared, pending[s])
  {
  }

  lemma FollowedMissing(declared: map<string, nat>, tables': Tables, pending': seq<Names>)
    requires "missing" in declared
    requires Followed(declared, [[Some(2)], [None], [], [None], []], [[], [], [], [Some("missing")], []], tables',
                      pending',
                      [0, 0, 2, 3, 4])
    ensures tables' == [[Some(2)], [Some(2)], [], [Some(declared["missing"])], []]
  {
    assert |tables'| == 5;
    assert tables'[0] == [Some(2)] && tables'[1] == [Some(2)];
    assert tables'[2] == [] && tables'[3] == [Some(declared["missing"])] && tables'[4] == [];
  }
}
