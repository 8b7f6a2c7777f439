/** The entity table and the indexes beside it: aliases, text index, rtree and rtree map. */
module EntityIndex {
  import opened Wrappers
  import opened Rows

  datatype Place = Place(id: string, name: string, kind: string, latitude: real, longitude: real)

  datatype Entity = Entity(source: string, provider: string, kind: string, name: string, latitude: real,
      longitude: real)

  datatype Box = Box(minX: real, maxX: real, minY: real, maxY: real)

  datatype TextRow = TextRow(id: string, name: string, aliases: seq<string>)

  /** The five tables.  `boxIds` is the rtree map, whose logical ids are unique. */
  datatype Index = Index(entities: map<string, Entity>, aliases: set<(string, string)>, texts: seq<TextRow>,
                         boxes: map<int, Box>, boxIds: map<int, string>)

  predicate ValidCoordinates(latitude: real, longitude: real) {
    -90.0 <= latitude <= 90.0 && -180.0 <= longitude <= 180.0
  }

  function Refusal(place: Place): (refusal: Option<string>)
    ensures refusal == None <==>
      && place.id != "" && place.name != ""
      && -90.0 <= place.latitude <= 90.0 && -180.0 <= place.longitude <= 180.0
  {
    if place.id == "" || place.name == "" then Some("entity ID and name are required")
    else if !ValidCoordinates(place.latitude, place.longitude) then Some("entity coordinates are invalid")
    else None
  }

  function EntityOf(place: Place, source: string, provider: string): Entity {
    Entity(source, provider, place.kind, place.name, place.latitude, place.longitude)
  }

  function PointBox(latitude: real, longitude: real): Box {
    Box(longitude, longitude, latitude, latitude)
  }

  predicate TextOf(id: string, row: TextRow) {
    row.id == id
  }

  function WithoutText(texts: seq<TextRow>, id: string): seq<TextRow> {
    Filter((row: TextRow) => !TextOf(id, row), texts)
  }

  /** The statements of upsertEntityTx on an accepted place; `hash` is stableEntityID. */
  function Upserted(hash: string -> int, ix: Index, place: Place, source: string, provider: string,
      aliases: seq<string>): Index {
    var rid := hash(place.id);
    Index(ix.entities[place.id := EntityOf(place, source, provider)],
          (set a | a in ix.aliases && a.0 != place.id) + (set alias | alias in aliases :: (place.id, alias)),
          WithoutText(ix.texts, place.id) + [TextRow(place.id, place.name, aliases)],
          ix.boxes[rid := PointBox(place.latitude, place.longitude)],
          (map k | k in ix.boxIds && ix.boxIds[k] != place.id :: ix.boxIds[k])[rid := place.id])
  }

  predicate FromSource(ix: Index, source: string, id: string) {
    id in ix.entities && ix.entities[id].source == source
  }

  function SourceIds(entities: map<string, Entity>, source: string): set<string> {
    set id | id in entities && entities[id].source == source
  }

  function Without(ix: Index, ids: set<string>): Index {
    Index(ix.entities - ids,
          (set a | a in ix.aliases && a.0 !in ids),
          Filter((row: TextRow) => row.id !in ids, ix.texts),
          map k | k in ix.boxes && !(k in ix.boxIds && ix.boxIds[k] in ids) :: ix.boxes[k],
          map k | k in ix.boxIds && ix.boxIds[k] !in ids :: ix.boxIds[k])
  }

  /** The statements of deleteEntitiesBySourceTx. */
  function WithoutSource(ix: Index, source: string): Index {
    Without(ix, SourceIds(ix.entities, source))
  }

  /** SaveResolvedPlace stores the entity and leaves the indexes alone. */
  function Resolved(ix: Index, place: Place, source: string, provider: string): Index {
    ix.(entities := ix.entities[place.id := EntityOf(place, source, provider)])
  }

  // ----- the index is consistent with the entities -----

  ghost predicate HasText(ix: Index, id: string) {
    exists row :: row in ix.texts && row.id == id
  }

  ghost predicate OneTextEach(ix: Index) {
    forall i, j | 0 <= i < j < |ix.texts| :: ix.texts[i].id != ix.texts[j].id
  }

  /** A text row stands for an existing entity and for exactly one box at its coordinates. */
  ghost predicate TextAttached(hash: string -> int, ix: Index, row: TextRow) {
    && row.id in ix.entities && row.name == ix.entities[row.id].name
    && hash(row.id) in ix.boxIds && ix.boxIds[hash(row.id)] == row.id
  }

  ghost predicate BoxAttached(hash: string -> int, ix: Index, k: int)
    requires k in ix.boxIds
  {
    var id := ix.boxIds[k];
    && k == hash(id) && HasText(ix, id) && id in ix.entities
    && k in ix.boxes && AtPoint(ix.boxes[k], ix.entities[id].latitude, ix.entities[id].longitude)
  }

  /** The box is the single point: longitude along x, latitude along y. */
  predicate AtPoint(box: Box, latitude: real, longitude: real) {
    box.minX == longitude && box.maxX == longitude && box.minY == latitude && box.maxY == latitude
  }

  ghost predicate Consistent(hash: string -> int, ix: Index) {
    && OneTextEach(ix)
    && (forall row | row in ix.texts :: TextAttached(hash, ix, row))
    && (forall k | k in ix.boxIds :: BoxAttached(hash, ix, k))
    && (forall k | k in ix.boxes :: k in ix.boxIds)
    && (forall a | a in ix.aliases :: a.0 in ix.entities)
  }

  /** No other indexed entity has the hash of `id`. */
  ghost predicate NoCollision(hash: string -> int, ix: Index, id: string) {
    forall row | row in ix.texts && row.id != id :: hash(row.id) != hash(id)
  }

  lemma TextsAfterUpsert(ix: Index, id: string, row: TextRow)
    requires OneTextEach(ix) && row.id == id
    ensures
      var texts := WithoutText(ix.texts, id) + [row];
      && (forall i, j | 0 <= i < j < |texts| :: texts[i].id != texts[j].id)
      && (forall r :: r in texts <==> (r in ix.texts && r.id != id) || r == row)
  {
    var keep := (r: TextRow) => !TextOf(id, r);
    var left := WithoutText(ix.texts, id);
    FilterSorted(keep, (a: TextRow, b: TextRow) => a.id != b.id, ix.texts);
    forall r ensures r in left <==> r in ix.texts && r.id != id {
      FilterMembers(keep, ix.texts, r);
    }
    forall i | 0 <= i < |left| ensures left[i].id != id {
      assert left[i] in left;
    }
  }

  /** What is stored about an entity that was upserted: its fields, these aliases, one text row and one point box. */
  ghost predicate StoredAs(hash: string -> int, ix: Index, place: Place, source: string, provider: string,
      aliases: seq<string>) {
    var id, k := place.id, hash(place.id);
    && id in ix.entities
    && ix.entities[id].source == source && ix.entities[id].provider == provider
    && ix.entities[id].kind == place.kind && ix.entities[id].name == place.name
    && ix.entities[id].latitude == place.latitude && ix.entities[id].longitude == place.longitude
    && (forall alias :: (id, alias) in ix.aliases <==> alias in aliases)
    && (forall row: TextRow | row.id == id :: row in ix.texts <==> row.name == place.name && row.aliases == aliases)
    && k in ix.boxIds && ix.boxIds[k] == id
    && (forall other | other in ix.boxIds && ix.boxIds[other] == id :: other == k)
    && k in ix.boxes && AtPoint(ix.boxes[k], place.latitude, place.longitude)
  }

  /** An upsert stores the whole entity, and nothing of what was stored about it before stays. */
  lemma UpsertStores(hash: string -> int, ix: Index, place: Place, source: string, provider: string,
      aliases: seq<string>)
    requires OneTextEach(ix)
    ensures StoredAs(hash, Upserted(hash, ix, place, source, provider, aliases), place, source, provider, aliases)
  {
    var after := Upserted(hash, ix, place, source, provider, aliases);
    var text := TextRow(place.id, place.name, aliases);
    TextsAfterUpsert(ix, place.id, text);
    forall row: TextRow | row.id == place.id
      ensures row in after.texts <==> row.name == place.name && row.aliases == aliases
    {
      assert row in after.texts <==> row == text;
    }
  }

  /** After the deletion of a source, nothing is left of its entities. */
  lemma DeleteForgets(hash: string -> int, ix: Index, source: string, id: string)
    requires FromSource(ix, source, id)
    ensures
      var after := WithoutSource(ix, source);
      && id !in after.entities && !HasText(after, id)
      && (forall alias :: (id, alias) !in after.aliases)
      && (forall k | k in ix.boxIds && ix.boxIds[k] == id :: k !in after.boxIds && k !in after.boxes)
  {
    var ids := SourceIds(ix.entities, source);
    forall row | row in WithoutSource(ix, source).texts ensures row.id != id {
      FilterMembers((r: TextRow) => r.id !in ids, ix.texts, row);
    }
  }

  /** An upsert keeps the index consistent exactly when the hash of the entity is not taken by another one. */
  lemma UpsertConsistent(hash: string -> int, ix: Index, place: Place, source: string, provider: string,
      aliases: seq<string>)
    requires Consistent(hash, ix)
    ensures Consistent(hash, Upserted(hash, ix, place, source, provider, aliases)) <==> NoCollision(hash, ix, place.id)
  {
    var after := Upserted(hash, ix, place, source, provider, aliases);
    TextsAfterUpsert(ix, place.id, TextRow(place.id, place.name, aliases));
    if NoCollision(hash, ix, place.id) {
      forall row | row in after.texts ensures TextAttached(hash, after, row) {
        if row.id != place.id {
          assert TextAttached(hash, ix, row);
        }
      }
      assert TextRow(place.id, place.name, aliases) in after.texts;
      forall k | k in after.boxIds ensures BoxAttached(hash, after, k) {
        if k != hash(place.id) {
          assert BoxAttached(hash, ix, k);
          var row :| row in ix.texts && row.id == ix.boxIds[k];
          assert row in after.texts;
        }
      }
      forall k | k in after.boxes ensures k in after.boxIds {
        if k != hash(place.id) {
          assert BoxAttached(hash, ix, k);
        }
      }
    } else {
      var row :| row in ix.texts && row.id != place.id && hash(row.id) == hash(place.id);
      assert row in after.texts;
      assert !TextAttached(hash, after, row);
    }
  }

  /** The place has the name and coordinates that are stored under its id. */
  predicate KeepsPoint(ix: Index, place: Place) {
    && place.id in ix.entities
    && var stored := ix.entities[place.id];
       (stored.name, stored.latitude, stored.longitude) == (place.name, place.latitude, place.longitude)
  }

  /** Saving a resolved place keeps consistency exactly when an indexed entity keeps its name and coordinates. */
  lemma ResolvedConsistent(hash: string -> int, ix: Index, place: Place, source: string, provider: string)
    requires Consistent(hash, ix)
    ensures Consistent(hash, Resolved(ix, place, source, provider)) <==>
            (HasText(ix, place.id) ==> KeepsPoint(ix, place))
  {
    var after := Resolved(ix, place, source, provider);
    if HasText(ix, place.id) {
      var row :| row in ix.texts && row.id == place.id;
      assert TextAttached(hash, ix, row);
      assert BoxAttached(hash, ix, hash(place.id));
      if Consistent(hash, after) {
        assert TextAttached(hash, after, row);
        assert BoxAttached(hash, after, hash(place.id));
      }
      if KeepsPoint(ix, place) {
        ResolvedKeeps(hash, ix, place, source, provider);
      }
    } else {
      ResolvedKeeps(hash, ix, place, source, provider);
    }
  }

  lemma ResolvedKeeps(hash: string -> int, ix: Index, place: Place, source: string, provider: string)
    requires Consistent(hash, ix)
    requires HasText(ix, place.id) ==> KeepsPoint(ix, place)
    ensures Consistent(hash, Resolved(ix, place, source, provider))
  {
    var after := Resolved(ix, place, source, provider);
    forall row | row in after.texts ensures TextAttached(hash, after, row) {
      assert TextAttached(hash, ix, row);
      assert row.id == place.id ==> HasText(ix, place.id);
    }
    forall k | k in after.boxIds ensures BoxAttached(hash, after, k) {
      assert BoxAttached(hash, ix, k);
      assert HasText(after, ix.boxIds[k]);
    }
  }

  /** Deleting a source keeps the index consistent. */
  lemma DeleteConsistent(hash: string -> int, ix: Index, source: string)
    requires Consistent(hash, ix)
    ensures Consistent(hash, WithoutSource(ix, source))
  {
    var ids := SourceIds(ix.entities, source);
    var keep := (row: TextRow) => row.id !in ids;
    var after := WithoutSource(ix, source);
    FilterSorted(keep, (a: TextRow, b: TextRow) => a.id != b.id, ix.texts);
    forall row | row in after.texts ensures TextAttached(hash, after, row) {
      FilterMembers(keep, ix.texts, row);
      assert TextAttached(hash, ix, row);
    }
    forall k | k in after.boxIds ensures BoxAttached(hash, after, k) {
      assert BoxAttached(hash, ix, k);
      var row :| row in ix.texts && row.id == ix.boxIds[k];
      FilterMembers(keep, ix.texts, row);
    }
  }

  /** What the tables hold about one entity. */
  ghost predicate SameAbout(ix: Index, after: Index, hash: string -> int, id: string) {
    && (id in ix.entities <==> id in after.entities) && (id in ix.entities ==> ix.entities[id] == after.entities[id])
    && (forall alias :: (id, alias) in ix.aliases <==> (id, alias) in after.aliases)
    && (forall row: TextRow | row.id == id :: row in ix.texts <==> row in after.texts)
    && (hash(id) in ix.boxIds && ix.boxIds[hash(id)] == id ==>
          hash(id) in after.boxIds && after.boxIds[hash(id)] == id
          && (hash(id) in ix.boxes ==> hash(id) in after.boxes && after.boxes[hash(id)] == ix.boxes[hash(id)]))
  }

  /** Deleting a source leaves the rows of every entity of another source as they were. */
  lemma DeleteLeavesOthers(hash: string -> int, ix: Index, source: string, id: string)
    requires !FromSource(ix, source, id)
    ensures SameAbout(ix, WithoutSource(ix, source), hash, id)
  {
    forall row: TextRow | row.id == id ensures row in ix.texts <==> row in WithoutSource(ix, source).texts {
      var ids := SourceIds(ix.entities, source);
      FilterMembers((r: TextRow) => r.id !in ids, ix.texts, row);
    }
  }

  /** An upsert leaves the rows of every other entity as they were, unless the hashes collide. */
  lemma UpsertLeavesOthers(hash: string -> int, ix: Index, place: Place, source: string, provider: string,
      aliases: seq<string>, id: string)
    requires id != place.id && hash(id) != hash(place.id)
    ensures SameAbout(ix, Upserted(hash, ix, place, source, provider, aliases), hash, id)
  {
    forall row: TextRow | row.id == id ensures row in ix.texts <==>
        row in Upserted(hash, ix, place, source, provider, aliases).texts {
      FilterMembers((r: TextRow) => !TextOf(place.id, r), ix.texts, row);
    }
  }

  // ----- runs -----

  datatype Op =
    | Upsert(place: Place, source: string, provider: string, aliases: seq<string>)
    | DeleteSource(source: string)
    | Resolve(place: Place, source: string, provider: string)

  function Step(hash: string -> int, ix: Index, op: Op): Index {
    match op
    case Upsert(place, source, provider, aliases) =>
      if Refusal(place) == None then Upserted(hash, ix, place, source, provider, aliases) else ix
    case DeleteSource(source) => WithoutSource(ix, source)
    case Resolve(place, source, provider) => if Refusal(place) == None then Resolved(ix, place, source, provider)
        else ix
  }

  function Run(hash: string -> int, ix: Index, ops: seq<Op>): Index
    decreases ops
  {
    if ops == [] then ix else Run(hash, Step(hash, ix, ops[0]), ops[1..])
  }

  ghost predicate Injective(hash: string -> int) {
    forall a, b | hash(a) == hash(b) :: a == b
  }

  /** Resolved places have ids of their own, apart from the indexed ones. */
  ghost predicate ResolvedApart(hash: string -> int, ix: Index, ops: seq<Op>)
    decreases ops
  {
    ops == [] || ((ops[0].Resolve? ==> !HasText(ix, ops[0].place.id))
        && ResolvedApart(hash, Step(hash, ix, ops[0]), ops[1..]))
  }

  /** Every run keeps texts, aliases and boxes attached to entities, each box at its entity's coordinates. */
  lemma {:induction false} RunConsistent(hash: string -> int, ix: Index, ops: seq<Op>)
    requires Injective(hash) && Consistent(hash, ix) && ResolvedApart(hash, ix, ops)
    ensures Consistent(hash, Run(hash, ix, ops))
    decreases ops
  {
    if ops != [] {
      match ops[0] {
        case Upsert(place, source, provider, aliases) => UpsertConsistent(hash, ix, place, source, provider, aliases);
        case DeleteSource(source) => DeleteConsistent(hash, ix, source);
        case Resolve(place, source, provider) => ResolvedConsistent(hash, ix, place, source, provider);
      }
      RunConsistent(hash, Step(hash, ix, ops[0]), ops[1..]);
    }
  }

  /** No operation of a run is about the entity `id` of `source`, nor about an entity of the same hash. */
  predicate Foreign(hash: string -> int, op: Op, source: string, id: string) {
    match op
    case DeleteSource(deleted) => deleted != source
    case _ => op.place.id != id && hash(op.place.id) != hash(id)
  }

  lemma StepLeavesOthers(hash: string -> int, ix: Index, op: Op, source: string, id: string)
    requires Foreign(hash, op, source, id) && FromSource(ix, source, id)
    ensures SameAbout(ix, Step(hash, ix, op), hash, id) && FromSource(Step(hash, ix, op), source, id)
  {
    match op {
      case Upsert(place, from, provider, aliases) => UpsertLeavesOthers(hash, ix, place, from, provider, aliases, id);
      case DeleteSource(deleted) => DeleteLeavesOthers(hash, ix, deleted, id);
      case Resolve(_, _, _) =>
    }
  }

  lemma SameAboutTransitive(hash: string -> int, a: Index, b: Index, c: Index, id: string)
    requires SameAbout(a, b, hash, id) && SameAbout(b, c, hash, id)
    ensures SameAbout(a, c, hash, id)
  {
    forall row: TextRow | row.id == id ensures row in a.texts <==> row in c.texts {
      assert row in a.texts <==> row in b.texts;
    }
  }

  /** Every run about other entities and other sources leaves all rows of an entity as they were. */
  lemma {:induction false} RunLeavesOthers(hash: string -> int, ix: Index, ops: seq<Op>, source: string, id: string)
    requires FromSource(ix, source, id)
    requires forall i | 0 <= i < |ops| :: Foreign(hash, ops[i], source, id)
    ensures SameAbout(ix, Run(hash, ix, ops), hash, id)
    decreases ops
  {
    if ops != [] {
      var next := Step(hash, ix, ops[0]);
      StepLeavesOthers(hash, ix, ops[0], source, id);
      forall i | 0 <= i < |ops[1..]| ensures Foreign(hash, ops[1..][i], source, id) {
        assert ops[1..][i] == ops[i + 1];
      }
      RunLeavesOthers(hash, next, ops[1..], source, id);
      SameAboutTransitive(hash, ix, next, Run(hash, ix, ops), id);
    }
  }

  // ----- the tables inside a transaction -----

  class EntityTables {
    var entities: map<string, Entity>
    var aliases: set<(string, string)>
    var texts: seq<TextRow>
    var boxes: map<int, Box>
    var boxIds: map<int, string>

    function Value(): Index
      reads this
    {
      Index(entities, aliases, texts, boxes, boxIds)
    }

    constructor (ix: Index)
      ensures Value() == ix
    {
      entities, aliases, texts, boxes, boxIds := ix.entities, ix.aliases, ix.texts, ix.boxes, ix.boxIds;
    }

    method InsertAliases(id: string, newAliases: seq<string>)
      modifies this`aliases
      ensures aliases == old(aliases) + set alias | alias in newAliases :: (id, alias)
    {
      for i := 0 to |newAliases|
        invariant aliases == old(aliases) + set alias | alias in newAliases[..i] :: (id, alias)
      {
        assert newAliases[..i + 1] == newAliases[..i] + [newAliases[i]];
        aliases := aliases + {(id, newAliases[i])};
      }
      assert newAliases[..|newAliases|] == newAliases;
    }

    method UpsertEntity(hash: string -> int, place: Place, source: string, provider: string, newAliases: seq<string>)
        returns (error: Option<string>)
      modifies this
      ensures error == Refusal(place)
      ensures Value() == Step(hash, old(Value()), Upsert(place, source, provider, newAliases))
      ensures Value() == if error == None then Upserted(hash, old(Value()), place, source, provider, newAliases)
          else old(Value())
    {
      error := Refusal(place);
      if error.Some? {
        return;
      }
      entities := entities[place.id := EntityOf(place, source, provider)];
      aliases := set a | a in aliases && a.0 != place.id;
      InsertAliases(place.id, newAliases);
      texts := WithoutText(texts, place.id);
      texts := texts + [TextRow(place.id, place.name, newAliases)];
      var rid := hash(place.id);
      boxes := boxes - {rid};
      boxes := boxes[rid := PointBox(place.latitude, place.longitude)];
      assert boxes == old(boxes)[rid := PointBox(place.latitude, place.longitude)];
      boxIds := map k | k in boxIds && boxIds[k] != place.id :: boxIds[k];
      boxIds := boxIds[rid := place.id];
    }

    method DeleteEntitiesBySource(source: string)
      modifies this
      ensures Value() == WithoutSource(old(Value()), source)
      ensures forall hash :: Value() == Step(hash, old(Value()), DeleteSource(source))
    {
      var ids := SourceIds(entities, source);
      texts := Filter((row: TextRow) => row.id !in ids, texts);
      aliases := set a | a in aliases && a.0 !in ids;
      boxes := map k | k in boxes && !(k in boxIds && boxIds[k] in ids) :: boxes[k];
      boxIds := map k | k in boxIds && boxIds[k] !in ids :: boxIds[k];
      entities := entities - ids;
    }

    method SaveResolvedPlace(place: Place, source: string, provider: string) returns (error: Option<string>)
      modifies this`entities
      ensures error == Refusal(place)
      ensures Value() == if error == None then Resolved(old(Value()), place, source, provider) else old(Value())
      ensures forall hash :: Value() == Step(hash, old(Value()), Resolve(place, source, provider))
    {
      error := Refusal(place);
      if error == None {
        entities := entities[place.id := EntityOf(place, source, provider)];
      }
    }
  }
}
