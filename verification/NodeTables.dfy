// Next tables of graph nodes: sibling cliques, and the resolution of named nexts.
module NodeTables {
  import opened Common

  type Table = seq<Option<nat>>
  type Names = seq<Option<string>>
  type Tables = seq<Table>

  // `clique[s]` is the first registered member of the clique of `s`.
  ghost predicate Cliques(siblings: seq<seq<nat>>, clique: seq<nat>) {
    && |siblings| == |clique|
    && forall t :: 0 <= t < |siblings| ==> CliqueAt(siblings[t], clique, t)
  }

  ghost predicate CliqueAt(list: seq<nat>, clique: seq<nat>, t: nat)
    requires t < |clique|
  {
    Distinct(list) && forall s :: s in list <==> 0 <= s < |clique| && s != t && clique[s] == clique[t]
  }

  ghost predicate SameTables(tables: Tables, clique: seq<nat>) {
    && |tables| == |clique|
    && forall s, t :: 0 <= s < |clique| && 0 <= t < |clique| && clique[s] == clique[t] ==> tables[s] == tables[t]
  }

  ghost predicate SameSizes(tables: Tables, clique: seq<nat>) {
    && |tables| == |clique|
    && forall s, t :: 0 <= s < |clique| && 0 <= t < |clique| && clique[s] == clique[t] ==> |tables[s]| == |tables[t]|
  }

  ghost predicate Aligned(tables: Tables, pending: seq<Names>) {
    |pending| == |tables| && forall s :: 0 <= s < |pending| ==> pending[s] == [] || |pending[s]| == |tables[s]|
  }

  // A sibling follows an earlier owner and waits for no names of its own.
  ghost predicate OwnersOk(owners: seq<Option<nat>>, clique: seq<nat>, pending: seq<Names>) {
    && |owners| == |clique| == |pending|
    && forall s {:trigger owners[s]} {:trigger pending[s]} :: 0 <= s < |owners| ==>
         if owners[s].None? then clique[s] == s
         else
           && owners[s].value < s && clique[s] == clique[owners[s].value] && pending[s] == []
           && clique[s] < s && owners[clique[s]].None?
  }

  // Until there is a drop node, a slot that waits for a name leads nowhere.
  ghost predicate Open(declared: map<string, nat>, tables: Tables, pending: seq<Names>) {
    && |pending| == |tables|
    && ("drop" !in declared ==> forall s :: 0 <= s < |pending| ==> OpenAt(tables[s], pending[s]))
  }

  ghost predicate OpenAt(table: Table, names: Names) {
    forall j :: 0 <= j < |names| && names[j].Some? ==> j < |table| && table[j] == None
  }

  // The sibling relation is symmetric, irreflexive and transitive.
  lemma SiblingClique(siblings: seq<seq<nat>>, clique: seq<nat>, s: nat, t: nat, u: nat)
    requires Cliques(siblings, clique) && s < |siblings| && t < |siblings| && u < |siblings|
    ensures s !in siblings[s]
    ensures s in siblings[t] ==> t in siblings[s]
    ensures s in siblings[t] && t in siblings[u] && s != u ==> s in siblings[u]
  {
    assert CliqueAt(siblings[s], clique, s) && CliqueAt(siblings[t], clique, t) && CliqueAt(siblings[u], clique, u);
  }

  lemma SameTablesSizes(tables: Tables, clique: seq<nat>)
    requires SameTables(tables, clique)
    ensures SameSizes(tables, clique)
  {
  }

  // ---- what names stand for

  // The node of that name, or the drop node until there is one.
  ghost function Aim(declared: map<string, nat>, name: string): Option<nat> {
    if name in declared then Some(declared[name]) else if "drop" in declared then Some(declared["drop"]) else None
  }

  // The table once the first `n` names are resolved.
  ghost function Fixed(declared: map<string, nat>, table: Table, names: Names, n: nat): Table {
    seq(|table|, j requires 0 <= j < |table| =>
                   if j < n && j < |names| && names[j].Some? then Aim(declared, names[j].value) else table[j])
  }

  // The names that still wait once the first `n` are resolved.
  ghost function Waiting(declared: map<string, nat>, names: Names, n: nat): Names {
    seq(|names|, j requires 0 <= j < |names| =>
                   if j < n && names[j].Some? && names[j].value in declared then None else names[j])
  }

  ghost predicate AllDeclared(declared: map<string, nat>, names: Names) {
    forall j :: 0 <= j < |names| && names[j].Some? ==> names[j].value in declared
  }

  // The names that wait after a node has been resolved; nothing is kept when none do.
  ghost function Settled(declared: map<string, nat>, names: Names): Names {
    if AllDeclared(declared, names) then [] else Waiting(declared, names, |names|)
  }

  // A name without a node, and no drop node to stand in for it.
  ghost predicate Hopeless(declared: map<string, nat>, names: Names, j: nat) {
    "drop" !in declared && j < |names| && names[j].Some? && names[j].value !in declared
  }

  ghost predicate Unresolvable(declared: map<string, nat>, names: Names) {
    exists j: nat :: Hopeless(declared, names, j)
  }

  // What a slot leads to once its node is resolved: the node of its name, or else the drop node, or what it led to.
  ghost predicate Leads(declared: map<string, nat>, table: Table, names: Names, table': Table, j: nat)
    requires j < |names| == |table| == |table'|
  {
    if names[j].None? then table'[j] == table[j]
    else if names[j].value in declared then table'[j] == Some(declared[names[j].value])
    else "drop" in declared && table'[j] == Some(declared["drop"])
  }

  // What a node still waits for once it is resolved: the names without a node, each in its slot.
  ghost predicate Keeps(declared: map<string, nat>, names: Names, names': Names) {
    if forall j :: 0 <= j < |names| && names[j].Some? ==> names[j].value in declared then names' == []
    else |names'| == |names| && forall j :: 0 <= j < |names| ==>
           names'[j] == if names[j].Some? && names[j].value !in declared then names[j] else None
  }

  lemma SlotsLead(declared: map<string, nat>, table: Table, names: Names)
    requires |names| == |table| && forall j :: 0 <= j < |names| ==> !Hopeless(declared, names, j)
    ensures forall j :: 0 <= j < |table| ==> Leads(declared, table, names, Fixed(declared, table, names, |names|), j)
    ensures Keeps(declared, names, Settled(declared, names))
  {
    forall j | 0 <= j < |table| ensures Leads(declared, table, names, Fixed(declared, table, names, |names|), j) {
      assert !Hopeless(declared, names, j);
    }
  }

  // The names of one node. A failure leaves the names before it resolved.
  method ResolveNames(declared: map<string, nat>, table: Table, names: Names)
    returns (r: Result<(Table, Names), (Table, Names)>, ghost i: nat)
    requires |names| == |table|
    ensures r.Err? <==> Unresolvable(declared, names)
    ensures r.Ok? ==> r.value == (Fixed(declared, table, names, |names|), Settled(declared, names))
    ensures r.Ok? ==> |r.value.0| == |table| && Keeps(declared, names, r.value.1)
    ensures r.Ok? ==> forall j :: 0 <= j < |table| ==> Leads(declared, table, names, r.value.0, j)
    ensures r.Err? ==>
              && Hopeless(declared, names, i) && (forall j :: 0 <= j < i ==> !Hopeless(declared, names, j))
              && r.error == (Fixed(declared, table, names, i), Waiting(declared, names, i))
  {
    var table', names' := table, names;
    var open := false;
    i := |names|;
    for k := 0 to |names|
      invariant table' == Fixed(declared, table, names, k) && names' == Waiting(declared, names, k)
      invariant forall j :: 0 <= j < k ==> !Hopeless(declared, names, j)
      invariant open <==> exists j :: 0 <= j < k && names[j].Some? && names[j].value !in declared
    {
      if names[k].Some? {
        var name := names[k].value;
        if name in declared {
          names' := names'[k := None];
          table' := table'[k := Some(declared[name])];
        } else {
          if "drop" !in declared {
            i := k;
            assert Hopeless(declared, names, k);
            return Err((table', names')), i;
          }
          table' := table'[k := Some(declared["drop"])];
          open := true;
        }
      }
    }
    r := Ok((table', if open then names' else []));
    SlotsLead(declared, table, names);
  }

  // ---- all nodes

  // Resolution stops at the first node with an unresolvable name, at its first such name.
  ghost predicate FailsAt(declared: map<string, nat>, pending: seq<Names>, k: nat, i: nat) {
    && k < |pending| && Hopeless(declared, pending[k], i)
    && (forall j :: 0 <= j < i ==> !Hopeless(declared, pending[k], j))
    && (forall s :: 0 <= s < k ==> !Unresolvable(declared, pending[s]))
  }

  // How many names of node `s` come before the one at which resolution stops.
  ghost function Reached(pending: seq<Names>, k: nat, i: nat, s: nat): nat
    requires s < |pending|
  {
    if s < k then |pending[s]| else if s == k then i else 0
  }

  // Some name of node `s` is resolved before the failure.
  ghost predicate Touched(pending: seq<Names>, k: nat, i: nat, s: nat)
    requires s < |pending|
  {
    exists j :: 0 <= j < |pending[s]| && j < Reached(pending, k, i, s) && pending[s][j].Some?
  }

  // The names that wait for node `s` after the failure.
  ghost function Left(declared: map<string, nat>, pending: seq<Names>, k: nat, i: nat, s: nat): Names
    requires s < |pending|
  {
    if s < k then Settled(declared, pending[s]) else Waiting(declared, pending[s], Reached(pending, k, i, s))
  }

  // Everything before the failing name is resolved, and nothing after it.
  ghost predicate StoppedAt(declared: map<string, nat>, tables: Tables, pending: seq<Names>, k: nat, i: nat,
                            tables': Tables, pending': seq<Names>)
    requires |tables| == |pending|
  {
    && |tables'| == |pending'| == |tables|
    && forall s {:trigger tables'[s]} {:trigger pending'[s]} :: 0 <= s < |tables| ==>
         && tables'[s] == Fixed(declared, tables[s], pending[s], Reached(pending, k, i, s))
         && pending'[s] == Left(declared, pending, k, i, s)
  }

  // Every node is resolved.
  ghost predicate AllResolved(declared: map<string, nat>, tables: Tables, pending: seq<Names>,
                              tables': Tables, pending': seq<Names>)
    requires |tables| == |pending|
  {
    && |tables'| == |pending'| == |tables|
    && forall s {:trigger tables'[s]} {:trigger pending'[s]} :: 0 <= s < |tables| ==>
         && tables'[s] == Fixed(declared, tables[s], pending[s], |pending[s]|)
         && pending'[s] == Settled(declared, pending[s])
  }

  lemma Unread(declared: map<string, nat>, table: Table, names: Names)
    ensures Fixed(declared, table, names, 0) == table && Waiting(declared, names, 0) == names
    ensures Fixed(declared, table, [], 0) == table && Settled(declared, []) == [] && !Unresolvable(declared, [])
  {
  }

  // The first loop: every node resolves its own names. A failure leaves the nodes before it resolved.
  method ResolveAll(declared: map<string, nat>, tables0: Tables, names0: seq<Names>)
    returns (r: Result<(Tables, seq<Names>), (Tables, seq<Names>)>, ghost k: nat, ghost i: nat)
    requires Aligned(tables0, names0)
    ensures r.Err? <==> exists s :: 0 <= s < |names0| && Unresolvable(declared, names0[s])
    ensures r.Ok? ==> AllResolved(declared, tables0, names0, r.value.0, r.value.1)
    ensures r.Err? ==>
              FailsAt(declared, names0, k, i) && StoppedAt(declared, tables0, names0, k, i, r.error.0, r.error.1)
  {
    hide Fixed, Waiting, Settled, Unresolvable, Hopeless;
    var tables, names := tables0, names0;
    k, i := 0, 0;
    for slot := 0 to |tables0|
      invariant |tables| == |names| == |tables0|
      invariant forall s :: slot <= s < |tables0| ==> tables[s] == tables0[s] && names[s] == names0[s]
      invariant forall s {:trigger tables[s]} {:trigger names[s]} :: 0 <= s < slot ==>
                  && tables[s] == Fixed(declared, tables0[s], names0[s], |names0[s]|)
                  && names[s] == Settled(declared, names0[s])
      invariant forall s :: 0 <= s < slot ==> !Unresolvable(declared, names0[s])
    {
      Unread(declared, tables[slot], names[slot]);
      if names[slot] != [] {
        var one, at := ResolveNames(declared, tables[slot], names[slot]);
        if one.Err? {
          k, i := slot, at;
          forall s | slot < s < |tables0| ensures Fixed(declared, tables0[s], names0[s], 0) == tables0[s]
                                                  && Waiting(declared, names0[s], 0) == names0[s] {
            Unread(declared, tables0[s], names0[s]);
          }
          return Err((tables[slot := one.error.0], names[slot := one.error.1])), k, i;
        }
        tables := tables[slot := one.value.0];
        names := names[slot := one.value.1];
      }
    }
    r := Ok((tables, names));
  }

  // The second loop: a sibling takes over the table of its owner, which comes before it.
  method FollowOwners(resolved: Tables, owners: seq<Option<nat>>, ghost clique: seq<nat>) returns (tables: Tables)
    requires |resolved| == |owners| == |clique|
    requires forall s :: 0 <= s < |owners| ==> RootOk(owners, clique, s)
    ensures |tables| == |resolved|
    ensures forall s :: 0 <= s < |tables| ==> RootOk(owners, clique, s) && tables[s] == resolved[clique[s]]
  {
    tables := resolved;
    for slot := 0 to |resolved|
      invariant |tables| == |resolved|
      invariant forall s :: 0 <= s < slot ==> RootOk(owners, clique, s) && tables[s] == resolved[clique[s]]
      invariant forall s :: slot <= s < |tables| ==> tables[s] == resolved[s]
    {
      assert RootOk(owners, clique, slot);
      if owners[slot].Some? {
        tables := tables[slot := tables[owners[slot].value]];
      }
    }
  }

  ghost predicate RootOk(owners: seq<Option<nat>>, clique: seq<nat>, s: nat)
    requires s < |owners| == |clique|
  {
    && clique[s] <= s
    && if owners[s].None? then clique[s] == s else owners[s].value < s && clique[s] == clique[owners[s].value]
  }

  lemma RootsFirst(owners: seq<Option<nat>>, clique: seq<nat>, pending: seq<Names>)
    requires OwnersOk(owners, clique, pending)
    ensures forall s :: 0 <= s < |owners| ==> RootOk(owners, clique, s)
  {
    forall s | 0 <= s < |owners| ensures RootOk(owners, clique, s) {
      assert owners[s].None? || owners[s].Some?;
    }
  }

  // ---- a resolution that succeeds

  // Once the siblings follow their owners the tables agree, whether or not they did before.
  lemma ResolvedRest(declared: map<string, nat>, tables: Tables, pending: seq<Names>, resolved: Tables,
                     pending': seq<Names>,
                     tables': Tables, owners: seq<Option<nat>>, clique: seq<nat>)
    requires SameSizes(tables, clique) && Aligned(tables, pending) && OwnersOk(owners, clique, pending)
    requires AllResolved(declared, tables, pending, resolved, pending') && |tables'| == |tables|
    requires forall s :: 0 <= s < |tables| ==> clique[s] < |tables| && tables'[s] == resolved[clique[s]]
    requires forall s :: 0 <= s < |pending| ==> !Unresolvable(declared, pending[s])
    ensures SameTables(tables', clique) && Aligned(tables', pending') && OwnersOk(owners, clique, pending')
    ensures Open(declared, tables', pending')
  {
    hide Fixed, Settled, Unresolvable;
    forall s | 0 <= s < |tables|
      ensures |tables'[s]| == |tables[s]| && (pending[s] == [] ==> pending'[s] == [])
      ensures pending'[s] == [] || |pending'[s]| == |pending[s]|
      ensures "drop" !in declared ==> pending'[s] == []
    {
      RootTwice(owners, clique, pending, s);
      ResolvedSizes(declared, tables[clique[s]], pending[clique[s]]);
      ResolvedSizes(declared, tables[s], pending[s]);
    }
    assert "drop" !in declared ==> forall s :: 0 <= s < |pending'| ==> OpenAt(tables'[s], pending'[s]);
  }

  lemma RootTwice(owners: seq<Option<nat>>, clique: seq<nat>, pending: seq<Names>, s: nat)
    requires OwnersOk(owners, clique, pending) && s < |clique|
    ensures clique[s] < |clique| && clique[clique[s]] == clique[s]
  {
    assert owners[s].None? || owners[s].Some?;
  }

  lemma ResolvedSizes(declared: map<string, nat>, table: Table, names: Names)
    ensures |Fixed(declared, table, names, |names|)| == |table|
    ensures Settled(declared, names) == [] || |Settled(declared, names)| == |names|
    ensures names == [] ==> Settled(declared, names) == []
    ensures "drop" !in declared && !Unresolvable(declared, names) ==> Settled(declared, names) == []
  {
    if "drop" !in declared && !Unresolvable(declared, names) {
      forall j | 0 <= j < |names| && names[j].Some? ensures names[j].value in declared {
        assert !Hopeless(declared, names, j);
      }
    }
  }

  // ---- a resolution that fails

  // Everything but the agreement of siblings survives a failure.
  lemma StoppedRest(declared: map<string, nat>, tables: Tables, pending: seq<Names>, k: nat, i: nat,
                    tables': Tables, pending': seq<Names>, owners: seq<Option<nat>>, clique: seq<nat>)
    requires SameSizes(tables, clique) && Aligned(tables, pending) && OwnersOk(owners, clique, pending)
    requires Open(declared, tables, pending) && FailsAt(declared, pending, k, i)
    requires StoppedAt(declared, tables, pending, k, i, tables', pending')
    ensures SameSizes(tables', clique) && Aligned(tables', pending') && OwnersOk(owners, clique, pending')
    ensures Open(declared, tables', pending')
  {
    hide Fixed, Waiting, Settled, Unresolvable, Hopeless, OpenAt;
    forall s | 0 <= s < |tables|
      ensures |tables'[s]| == |tables[s]| && (pending[s] == [] ==> pending'[s] == [])
      ensures pending'[s] == [] || |pending'[s]| == |pending[s]|
      ensures OpenAt(tables'[s], pending'[s])
    {
      NoDrop(declared, pending[k], i);
      StoppedNode(declared, tables[s], pending[s], Reached(pending, k, i, s));
      ResolvedSizes(declared, tables[s], pending[s]);
      NothingOpen(tables'[s]);
    }
  }

  lemma NoDrop(declared: map<string, nat>, names: Names, i: nat)
    requires Hopeless(declared, names, i)
    ensures "drop" !in declared
  {
  }

  lemma NothingOpen(table: Table)
    ensures OpenAt(table, [])
  {
  }

  lemma StoppedNode(declared: map<string, nat>, table: Table, names: Names, n: nat)
    requires OpenAt(table, names)
    ensures |Fixed(declared, table, names, n)| == |table| && |Waiting(declared, names, n)| == |names|
    ensures (forall j :: 0 <= j < n ==> !Hopeless(declared, names, j)) && "drop" !in declared ==>
              OpenAt(Fixed(declared, table, names, n), Waiting(declared, names, n))
  {
    if (forall j :: 0 <= j < n ==> !Hopeless(declared, names, j)) && "drop" !in declared {
      var names' := Waiting(declared, names, n);
      forall j | 0 <= j < |names'| && names'[j].Some? ensures j < |table|
          && Fixed(declared, table, names, n)[j] == None {
        assert names[j].Some? && (j < n ==> !Hopeless(declared, names, j));
      }
    }
  }

  // A node's table changes exactly when one of its names is resolved.
  lemma FixedChanges(declared: map<string, nat>, table: Table, names: Names, n: nat)
    requires "drop" !in declared && OpenAt(table, names) && forall j :: 0 <= j < n ==> !Hopeless(declared, names, j)
    ensures Fixed(declared, table, names, n) == table <==> forall j :: 0 <= j < |names| && j < n ==> names[j].None?
  {
    forall j | 0 <= j < |names| && j < n && names[j].Some?
      ensures j < |table| && Fixed(declared, table, names, n)[j] != table[j]
    {
      assert !Hopeless(declared, names, j);
    }
    if forall j :: 0 <= j < |names| && j < n ==> names[j].None? {
      assert Fixed(declared, table, names, n) == table;
    }
  }

  // The tables that change are those of the nodes with a name before the failing one.
  lemma StoppedTouches(declared: map<string, nat>, tables: Tables, pending: seq<Names>, k: nat, i: nat,
                       tables': Tables, pending': seq<Names>, s: nat)
    requires |tables| == |pending| && Open(declared, tables, pending) && FailsAt(declared, pending, k, i)
    requires StoppedAt(declared, tables, pending, k, i, tables', pending') && s < |tables|
    ensures tables'[s] != tables[s] <==> Touched(pending, k, i, s)
  {
    hide Fixed, Waiting, Settled;
    NoDrop(declared, pending[k], i);
    var n := Reached(pending, k, i, s);
    forall j | 0 <= j < n ensures !Hopeless(declared, pending[s], j) {
      assert s < k ==> !Unresolvable(declared, pending[s]);
    }
    assert OpenAt(tables[s], pending[s]);
    FixedChanges(declared, tables[s], pending[s], n);
    assert tables'[s] == Fixed(declared, tables[s], pending[s], n);
  }

  // A failure changes nothing exactly when no name waits before the failing one.
  lemma StoppedUnchanged(declared: map<string, nat>, tables: Tables, pending: seq<Names>, k: nat, i: nat,
                         tables': Tables, pending': seq<Names>)
    requires |tables| == |pending| && Open(declared, tables, pending) && FailsAt(declared, pending, k, i)
    requires StoppedAt(declared, tables, pending, k, i, tables', pending')
    ensures tables' == tables <==> forall s :: 0 <= s < |pending| ==> !Touched(pending, k, i, s)
  {
    hide Touched, Open, FailsAt, Fixed, Left;
    forall s | 0 <= s < |tables| ensures tables'[s] != tables[s] <==> Touched(pending, k, i, s) {
      StoppedTouches(declared, tables, pending, k, i, tables', pending', s);
    }
  }

  // Siblings still agree after a failure exactly when the nodes with a name before the failing one have none.
  lemma StoppedAgreement(declared: map<string, nat>, tables: Tables, pending: seq<Names>, k: nat, i: nat,
                         tables': Tables, pending': seq<Names>, owners: seq<Option<nat>>, clique: seq<nat>,
                         siblings: seq<seq<nat>>)
    requires SameTables(tables, clique) && OwnersOk(owners, clique, pending) && Cliques(siblings, clique)
    requires Open(declared, tables, pending) && FailsAt(declared, pending, k, i)
    requires StoppedAt(declared, tables, pending, k, i, tables', pending')
    ensures SameTables(tables', clique) <==>
            forall s :: 0 <= s < |pending| && Touched(pending, k, i, s) ==> siblings[s] == []
  {
    assert |siblings| == |clique|;
    hide Open, FailsAt, Fixed, Left, Cliques, StoppedAt, Reached;
    assert |tables'| == |tables| by { StoppedSize(declared, tables, pending, k, i, tables', pending'); }
    forall s | 0 <= s < |tables| ensures tables'[s] != tables[s] <==> Touched(pending, k, i, s) {
      StoppedTouches(declared, tables, pending, k, i, tables', pending', s);
    }
    forall s, t | 0 <= s < |clique| && 0 <= t < |clique| && s != t && clique[s] == clique[t]
      ensures t in siblings[s] && (Touched(pending, k, i, s) ==> !Touched(pending, k, i, t))
    {
      InClique(siblings, clique, s, t);
      assert owners[s].None? || owners[s].Some?;
      assert owners[t].None? || owners[t].Some?;
    }
    if s :| 0 <= s < |pending| && Touched(pending, k, i, s) && siblings[s] != [] {
      var t := siblings[s][0];
      InClique(siblings, clique, s, t);
      assert tables'[s] != tables'[t];
    }
  }

  lemma StoppedSize(declared: map<string, nat>, tables: Tables, pending: seq<Names>, k: nat, i: nat,
                    tables': Tables, pending': seq<Names>)
    requires |tables| == |pending| && StoppedAt(declared, tables, pending, k, i, tables', pending')
    ensures |tables'| == |tables|
  {
  }

  lemma InClique(siblings: seq<seq<nat>>, clique: seq<nat>, s: nat, t: nat)
    requires Cliques(siblings, clique) && s < |clique|
    ensures t in siblings[s] <==> t < |clique| && t != s && clique[t] == clique[s]
  {
    assert CliqueAt(siblings[s], clique, s);
  }
}
