/** Item types for relationship types: the mapping the migration works with. */
module RelationshipTypes {
  import opened Options
  import opened Sequences

  /** `""` stands for a missing text. */
  datatype RelType = RelType(id: string, name: string, tag: string, sourceItemType: string, relatedItemType: string)

  datatype ItemType = ItemType(tag: string, description: string, isRelationship: bool, isVersionable: bool,
                               versionControl: bool, sourceItemType: string, relatedItemType: string)

  type Types = map<string, ItemType>

  function NameOf(r: RelType): string {
    if r.name != "" then r.name else r.id
  }

  function Created(r: RelType): ItemType {
    ItemType(if r.tag != "" then r.tag else NameOf(r), "Relationship type for " + NameOf(r),
             true, false, false, r.sourceItemType, r.relatedItemType)
  }

  /** Fills what is blank; overwrites nothing that is set. */
  function Completed(t: ItemType, r: RelType): ItemType {
    t.(isRelationship := true,
       sourceItemType := if t.sourceItemType == "" then r.sourceItemType else t.sourceItemType,
       relatedItemType := if t.relatedItemType == "" then r.relatedItemType else t.relatedItemType)
  }

  /** The item types the database has, with the changes made to them, and those added and not yet committed. */
  datatype Pending = Pending(found: Types, added: seq<(string, ItemType)>)

  /** An item type is looked up among those the database has; one added earlier in the same run is not found. */
  function EnsureOne(p: Pending, r: RelType, allowUpdates: bool): Pending {
    var key := NameOf(r);
    if key !in p.found then p.(added := p.added + [(key, Created(r))])
    else if allowUpdates then p.(found := p.found[key := Completed(p.found[key], r)])
    else p
  }

  function Ensured(types: Types, rels: seq<RelType>, allowUpdates: bool): Pending {
    if rels == [] then Pending(types, [])
    else EnsureOne(Ensured(types, rels[..|rels| - 1], allowUpdates), rels[|rels| - 1], allowUpdates)
  }

  function Ids(added: seq<(string, ItemType)>): seq<string> {
    seq(|added|, i requires 0 <= i < |added| => added[i].0)
  }

  function WithAdded(types: Types, added: seq<(string, ItemType)>): Types {
    if added == [] then types
    else WithAdded(types, added[..|added| - 1])[added[|added| - 1].0 := added[|added| - 1].1]
  }

  /** The item types after the commit, which fails if one id was added twice. */
  function Flushed(p: Pending): Option<Types> {
    if Distinct(Ids(p.added)) then Some(WithAdded(p.found, p.added)) else None
  }

  /** The item type each relationship type's rows become: the last one listed under an id decides. */
  function MappingOf(rels: seq<RelType>): map<string, string> {
    if rels == [] then map[] else MappingOf(rels[..|rels| - 1])[rels[|rels| - 1].id := NameOf(rels[|rels| - 1])]
  }

  method EnsureItemTypes(given: Types, rels: seq<RelType>, allowUpdates: bool)
    returns (mapping: map<string, string>, pending: Pending)
    ensures pending == Ensured(given, rels, allowUpdates) && mapping == MappingOf(rels)
  {
    mapping, pending := map[], Pending(given, []);
    for i := 0 to |rels|
      invariant pending == Ensured(given, rels[..i], allowUpdates) && mapping == MappingOf(rels[..i])
    {
      assert rels[..i + 1][..i] == rels[..i];
      var rel := rels[i];
      var itemTypeId := if rel.name != "" then rel.name else rel.id;
      ghost var next := EnsureOne(pending, rel, allowUpdates);
      mapping := mapping[rel.id := itemTypeId];
      if itemTypeId !in pending.found {
        var tag := if rel.tag != "" then rel.tag else if rel.name != "" then rel.name else rel.id;
        var description := "Relationship type for " + if rel.name != "" then rel.name else rel.id;
        var itemType := ItemType(tag, description, true, false, false, rel.sourceItemType, rel.relatedItemType);
        pending := pending.(added := pending.added + [(itemTypeId, itemType)]);
      } else if allowUpdates {
        var t := pending.found[itemTypeId];
        if !t.isRelationship {
          t := t.(isRelationship := true);
        }
        if t.sourceItemType == "" {
          t := t.(sourceItemType := rel.sourceItemType);
        }
        if t.relatedItemType == "" {
          t := t.(relatedItemType := rel.relatedItemType);
        }
        pending := pending.(found := pending.found[itemTypeId := t]);
      }
      assert pending == next;
    }
    assert rels[..|rels|] == rels;
  }

  // ---------- what is found and what is added ----------

  /** No item type is lost, and the added ones are the new names in order. */
  function NewNames(given: Types, rels: seq<RelType>): seq<string> {
    if rels == [] then []
    else
      var last := NameOf(rels[|rels| - 1]);
      NewNames(given, rels[..|rels| - 1]) + if last in given then [] else [last]
  }

  lemma {:induction false} FoundAndAdded(given: Types, rels: seq<RelType>, allowUpdates: bool)
    ensures var p := Ensured(given, rels, allowUpdates);
            p.found.Keys == given.Keys && Ids(p.added) == NewNames(given, rels)
  {
    if rels != [] {
      var n := |rels| - 1;
      FoundAndAdded(given, rels[..n], allowUpdates);
      var before, after := Ensured(given, rels[..n], allowUpdates), Ensured(given, rels, allowUpdates);
      if NameOf(rels[n]) !in given {
        assert Ids(after.added) == Ids(before.added) + [NameOf(rels[n])];
      }
    }
  }

  /** Every relationship type whose name is new is among the added ones, as it was created. */
  lemma {:induction false} AddedFor(given: Types, rels: seq<RelType>, allowUpdates: bool, k: nat)
    requires k < |rels| && NameOf(rels[k]) !in given
    ensures (NameOf(rels[k]), Created(rels[k])) in Ensured(given, rels, allowUpdates).added
  {
    var n := |rels| - 1;
    FoundAndAdded(given, rels[..n], allowUpdates);
    if k < n {
      AddedFor(given, rels[..n], allowUpdates, k);
    }
  }

  lemma {:induction false} WithAddedKeys(types: Types, added: seq<(string, ItemType)>)
    ensures forall k :: k in WithAdded(types, added) <==> k in types || k in Ids(added)
    ensures forall k :: k in types && k !in Ids(added) ==> WithAdded(types, added)[k] == types[k]
  {
    if added != [] {
      var n := |added| - 1;
      WithAddedKeys(types, added[..n]);
      assert Ids(added) == Ids(added[..n]) + [added[n].0];
    }
  }

  lemma {:induction false} WithAddedValue(types: Types, added: seq<(string, ItemType)>, k: nat)
    requires Distinct(Ids(added)) && k < |added|
    ensures added[k].0 in WithAdded(types, added) && WithAdded(types, added)[added[k].0] == added[k].1
  {
    var n := |added| - 1;
    assert forall i :: 0 <= i < n ==> Ids(added)[i] == Ids(added[..n])[i];
    if k < n {
      WithAddedValue(types, added[..n], k);
      assert Ids(added)[k] != Ids(added)[n];
    }
  }

  // ---------- when the commit fails ----------

  /** Two relationship types want the same new item type. */
  predicate SharedNewName(given: Types, rels: seq<RelType>) {
    exists i, j :: 0 <= i < j < |rels| && NameOf(rels[i]) == NameOf(rels[j]) && NameOf(rels[i]) !in given
  }

  predicate Named(rels: seq<RelType>, name: string) {
    exists i :: 0 <= i < |rels| && NameOf(rels[i]) == name
  }

  lemma NamedOneMore(rels: seq<RelType>, name: string)
    requires rels != []
    ensures var n := |rels| - 1; Named(rels, name) <==> Named(rels[..n], name) || NameOf(rels[n]) == name
  {
    var n := |rels| - 1;
    if Named(rels[..n], name) {
      var i :| 0 <= i < n && NameOf(rels[..n][i]) == name;
      assert NameOf(rels[i]) == name;
    }
    if Named(rels, name) {
      var i :| 0 <= i < |rels| && NameOf(rels[i]) == name;
      assert i < n ==> NameOf(rels[..n][i]) == name;
    }
  }

  lemma {:induction false} NewNamesMember(given: Types, rels: seq<RelType>, name: string)
    ensures name in NewNames(given, rels) <==> name !in given && Named(rels, name)
  {
    if rels != [] {
      hide Named;
      var n := |rels| - 1;
      NewNamesMember(given, rels[..n], name);
      NamedOneMore(rels, name);
      if NameOf(rels[n]) in given {
        assert NewNames(given, rels) == NewNames(given, rels[..n]);
      } else {
        assert NewNames(given, rels) == NewNames(given, rels[..n]) + [NameOf(rels[n])];
      }
    }
  }

  lemma {:induction false} NewNamesDistinct(given: Types, rels: seq<RelType>)
    ensures Distinct(NewNames(given, rels)) <==> !SharedNewName(given, rels)
  {
    if rels != [] {
      var n := |rels| - 1;
      var front, name := NewNames(given, rels[..n]), NameOf(rels[n]);
      NewNamesDistinct(given, rels[..n]);
      NewNamesMember(given, rels[..n], name);
      SharedOneMore(given, rels);
      if name in given {
        assert NewNames(given, rels) == front;
      } else {
        DistinctOneMore(front, name);
      }
    }
  }

  lemma SharedOneMore(given: Types, rels: seq<RelType>)
    requires rels != []
    ensures var n := |rels| - 1;
            SharedNewName(given, rels) <==>
              SharedNewName(given, rels[..n])
              || (NameOf(rels[n]) !in given && Named(rels[..n], NameOf(rels[n])))
  {
    var n := |rels| - 1;
    if SharedNewName(given, rels[..n]) {
      var i, j :| 0 <= i < j < n && NameOf(rels[..n][i]) == NameOf(rels[..n][j]) && NameOf(rels[..n][i]) !in given;
      assert NameOf(rels[i]) == NameOf(rels[j]);
    }
    if Named(rels[..n], NameOf(rels[n])) {
      var i :| 0 <= i < n && NameOf(rels[..n][i]) == NameOf(rels[n]);
      assert NameOf(rels[i]) == NameOf(rels[n]);
    }
    if SharedNewName(given, rels) {
      var i, j :| 0 <= i < j < |rels| && NameOf(rels[i]) == NameOf(rels[j]) && NameOf(rels[i]) !in given;
      assert NameOf(rels[..n][i]) == NameOf(rels[i]);
      assert j < n ==> NameOf(rels[..n][j]) == NameOf(rels[j]);
    }
  }

  lemma DistinctOneMore(front: seq<string>, name: string)
    ensures Distinct(front + [name]) <==> Distinct(front) && name !in front
  {
    var more := front + [name];
    if Distinct(more) {
      assert forall i :: 0 <= i < |front| ==> front[i] == more[i] && more[i] != more[|front|];
    }
  }

  /** The commit fails exactly when two relationship types want the same new item type. */
  lemma CommitFailsIff(given: Types, rels: seq<RelType>, allowUpdates: bool)
    ensures Flushed(Ensured(given, rels, allowUpdates)) == None <==> SharedNewName(given, rels)
  {
    FoundAndAdded(given, rels, allowUpdates);
    NewNamesDistinct(given, rels);
  }

  /** A nameless relationship type whose id is the name of another, with no such item type yet: the commit fails. */
  lemma NamelessClash(a: RelType, b: RelType, allowUpdates: bool)
    requires a.name == "BOM" && b.name == "" && b.id == "BOM"
    ensures Flushed(Ensured(map[], [a, b], allowUpdates)) == None
  {
    var rels := [a, b];
    assert NameOf(rels[0]) == NameOf(rels[1]);
    CommitFailsIff(map[], rels, allowUpdates);
  }

  // ---------- what a successful commit leaves ----------

  lemma {:induction false} MappingNames(rels: seq<RelType>)
    ensures MappingOf(rels).Keys == set r | r in rels :: r.id
    ensures forall id :: id in MappingOf(rels) ==> exists k :: 0 <= k < |rels| && NameOf(rels[k]) == MappingOf(rels)[id]
  {
    if rels != [] {
      var n := |rels| - 1;
      MappingNames(rels[..n]);
      assert rels == rels[..n] + [rels[n]];
      forall id | id in MappingOf(rels) ensures exists k :: 0 <= k < |rels| && NameOf(rels[k]) == MappingOf(rels)[id] {
        if id == rels[n].id {
          assert NameOf(rels[n]) == MappingOf(rels)[id];
        } else {
          assert id in MappingOf(rels[..n]);
          var k :| 0 <= k < n && NameOf(rels[..n][k]) == MappingOf(rels[..n])[id];
          assert NameOf(rels[k]) == MappingOf(rels)[id];
        }
      }
    }
  }

  lemma NamesExist(given: Types, rels: seq<RelType>, allowUpdates: bool, k: nat)
    requires k < |rels|
    ensures var p := Ensured(given, rels, allowUpdates); NameOf(rels[k]) in WithAdded(p.found, p.added)
  {
    var p := Ensured(given, rels, allowUpdates);
    FoundAndAdded(given, rels, allowUpdates);
    WithAddedKeys(p.found, p.added);
    NewNamesMember(given, rels, NameOf(rels[k]));
  }

  /** Every relationship type is mapped, and after a commit only to item types that exist. */
  lemma MappedTypesExist(given: Types, rels: seq<RelType>, allowUpdates: bool)
    ensures MappingOf(rels).Keys == set r | r in rels :: r.id
    ensures var after := Flushed(Ensured(given, rels, allowUpdates));
            after.Some? ==> forall id :: id in MappingOf(rels) ==> MappingOf(rels)[id] in after.value
  {
    MappingNames(rels);
    forall id | id in MappingOf(rels)
      ensures var p := Ensured(given, rels, allowUpdates); MappingOf(rels)[id] in WithAdded(p.found, p.added) {
      var k :| 0 <= k < |rels| && NameOf(rels[k]) == MappingOf(rels)[id];
      NamesExist(given, rels, allowUpdates, k);
    }
  }

  /** What a new item type is, by its relationship type: the tag is the first that is set of tag, name and id. */
  predicate MadeFor(t: ItemType, r: RelType) {
    && t.isRelationship && !t.isVersionable && !t.versionControl
    && t.sourceItemType == r.sourceItemType && t.relatedItemType == r.relatedItemType
    && (r.tag != "" ==> t.tag == r.tag) && (r.tag == "" && r.name != "" ==> t.tag == r.name)
    && (r.tag == "" && r.name == "" ==> t.tag == r.id)
    && (r.name != "" ==> t.description == "Relationship type for " + r.name)
    && (r.name == "" ==> t.description == "Relationship type for " + r.id)
  }

  /** After a commit, a relationship type's name - or its id, if it has none - is an item type: a new one made for it, or
      the one there was, which without updates is left alone and with them only has its blanks filled. */
  lemma ItemTypeAfterCommit(given: Types, rels: seq<RelType>, allowUpdates: bool, k: nat)
    requires k < |rels| && Flushed(Ensured(given, rels, allowUpdates)).Some?
    ensures var after, r := Flushed(Ensured(given, rels, allowUpdates)).value, rels[k];
            var name := if r.name != "" then r.name else r.id;
            && name in after
            && (name !in given ==> MadeFor(after[name], r))
            && (name in given ==> FilledIn(given[name], after[name], allowUpdates))
  {
    hide Ensured;
    hide WithAdded;
    hide Created;
    var p, name := Ensured(given, rels, allowUpdates), NameOf(rels[k]);
    FoundAndAdded(given, rels, allowUpdates);
    WithAddedKeys(p.found, p.added);
    NewNamesMember(given, rels, name);
    if name in given {
      OnlyFilledIn(given, rels, allowUpdates, name);
    } else {
      AddedFor(given, rels, allowUpdates, k);
      CreatedMadeFor(rels[k]);
      var i :| 0 <= i < |p.added| && p.added[i] == (name, Created(rels[k]));
      WithAddedValue(p.found, p.added, i);
    }
  }

  lemma CreatedMadeFor(r: RelType)
    ensures MadeFor(Created(r), r)
  {
  }

  /** Blanks may have been filled in, and the type made a relationship type; nothing that was set has changed. */
  predicate FilledIn(before: ItemType, after: ItemType, allowUpdates: bool) {
    && after.tag == before.tag && after.description == before.description
    && after.isVersionable == before.isVersionable && after.versionControl == before.versionControl
    && (before.sourceItemType != "" ==> after.sourceItemType == before.sourceItemType)
    && (before.relatedItemType != "" ==> after.relatedItemType == before.relatedItemType)
    && (before.isRelationship ==> after.isRelationship)
    && (!allowUpdates ==> after == before)
  }

  lemma {:induction false} OnlyFilledIn(given: Types, rels: seq<RelType>, allowUpdates: bool, name: string)
    requires name in given
    ensures name in Ensured(given, rels, allowUpdates).found
    ensures FilledIn(given[name], Ensured(given, rels, allowUpdates).found[name], allowUpdates)
  {
    hide Created;
    if rels != [] {
      OnlyFilledIn(given, rels[..|rels| - 1], allowUpdates, name);
    }
  }

  /** Handling the relationship type again would change nothing. */
  predicate Settled(types: Types, r: RelType, allowUpdates: bool) {
    NameOf(r) in types && (allowUpdates ==> Completed(types[NameOf(r)], r) == types[NameOf(r)])
  }

  /** What is settled among the found ones stays settled. */
  lemma {:induction false} FoundSettled(given: Types, rels: seq<RelType>, allowUpdates: bool, k: nat)
    requires k < |rels| && NameOf(rels[k]) in given
    ensures Settled(Ensured(given, rels, allowUpdates).found, rels[k], allowUpdates)
  {
    hide WithAdded;
    hide Created;
    var n := |rels| - 1;
    FoundAndAdded(given, rels[..n], allowUpdates);
    if k < n {
      FoundSettled(given, rels[..n], allowUpdates, k);
    }
  }

  lemma AllSettled(given: Types, rels: seq<RelType>, allowUpdates: bool, k: nat)
    requires k < |rels| && Flushed(Ensured(given, rels, allowUpdates)).Some?
    ensures Settled(Flushed(Ensured(given, rels, allowUpdates)).value, rels[k], allowUpdates)
  {
    hide Ensured;
    hide WithAdded;
    var p := Ensured(given, rels, allowUpdates);
    FoundAndAdded(given, rels, allowUpdates);
    WithAddedKeys(p.found, p.added);
    NewNamesMember(given, rels, NameOf(rels[k]));
    if NameOf(rels[k]) in given {
      FoundSettled(given, rels, allowUpdates, k);
    } else {
      AddedFor(given, rels, allowUpdates, k);
      var i :| 0 <= i < |p.added| && p.added[i] == (NameOf(rels[k]), Created(rels[k]));
      WithAddedValue(p.found, p.added, i);
    }
  }

  lemma {:induction false} SettledStay(types: Types, rels: seq<RelType>, allowUpdates: bool)
    requires forall k :: 0 <= k < |rels| ==> Settled(types, rels[k], allowUpdates)
    ensures Ensured(types, rels, allowUpdates) == Pending(types, [])
  {
    if rels != [] {
      SettledStay(types, rels[..|rels| - 1], allowUpdates);
    }
  }

  /** After a run whose commit went through, a second run adds and changes nothing. */
  lemma EnsureIdempotent(given: Types, rels: seq<RelType>, allowUpdates: bool)
    requires Flushed(Ensured(given, rels, allowUpdates)).Some?
    ensures var once := Flushed(Ensured(given, rels, allowUpdates)).value;
            Ensured(once, rels, allowUpdates) == Pending(once, [])
  {
    var once := Flushed(Ensured(given, rels, allowUpdates)).value;
    forall k | 0 <= k < |rels| ensures Settled(once, rels[k], allowUpdates) {
      AllSettled(given, rels, allowUpdates, k);
    }
    SettledStay(once, rels, allowUpdates);
  }
}
