/**
 * spitfire/mongo/engine-iac.rendered.js: reconciling the collections and
 * indexes of the `engine-iac` database with a fixed configuration. The
 * database is a map from collection name to the names of its indexes.
 */
module EngineIac {
  import opened Wrappers
  import opened Separated

  /** The index every collection is created with; it can never be dropped. */
  const ID_INDEX: string := "_id_"

  /** One field of an index key, with its order as MongoDB writes it into default names ("1", "-1"). */
  datatype KeyField = KeyField(field: string, order: string)

  /** The `options` object passed to `createIndex`. */
  datatype IndexOptions = IndexOptions(name: Option<string>, unique: bool)

  /** One entry of a collection's `indexes` array: an optional top-level `name`, the `key` and the `options`. */
  datatype IndexConfig = IndexConfig(name: Option<string>, key: seq<KeyField>, options: Option<IndexOptions>)

  /** One configured collection; `indexes` is None when the entry has no (or a null) `indexes` member. */
  datatype CollectionConfig = CollectionConfig(name: string, indexes: Option<seq<IndexConfig>>)

  function FieldNames(key: seq<KeyField>): (r: seq<string>)
    ensures |r| == |key| && forall i :: 0 <= i < |key| ==> r[i] == key[i].field
  {
    seq(|key|, i requires 0 <= i < |key| => key[i].field)
  }

  /**
   * The name the script compares with: `index_config.name ||
   * Object.keys(index_config.key).join('_')`; an empty name is falsy and
   * falls back to the key fields.
   */
  function DesiredName(ic: IndexConfig): string {
    if ic.name.Some? && ic.name.value != [] then ic.name.value else Join(FieldNames(ic.key), '_')
  }

  /** The desired names of a collection's indexes, in configuration order. */
  function DesiredNames(indexes: seq<IndexConfig>): (r: seq<string>)
    ensures |r| == |indexes| && forall i :: 0 <= i < |indexes| ==> r[i] == DesiredName(indexes[i])
  {
    seq(|indexes|, i requires 0 <= i < |indexes| => DesiredName(indexes[i]))
  }

  /** MongoDB's default index name: each field followed by its order, all joined with '_'. */
  function DefaultIndexName(key: seq<KeyField>): string {
    Join(seq(|key|, i requires 0 <= i < |key| => key[i].field + "_" + key[i].order), '_')
  }

  /** The name MongoDB gives an index that `createIndex(key, options)` builds: `options.name`, else the default. */
  function CreatedName(ic: IndexConfig): string {
    if ic.options.Some? && ic.options.value.name.Some? then ic.options.value.name.value else DefaultIndexName(ic.key)
  }

  /**
   * An index configured without any name (or with an empty, falsy top-level
   * one) is compared under its fields joined
   * with '_' but created under MongoDB's default name, which also carries each
   * field's order: the two never agree, so a run never finds the index it
   * created under the name it looks for.
   */
  lemma UnnamedIndexNameDiffers(ic: IndexConfig)
    requires ic.name.None? || ic.name.value == []
    requires ic.options.None? || ic.options.value.name.None?
    requires |ic.key| > 0
    ensures DesiredName(ic) != CreatedName(ic)
  {
    var key := ic.key;
    var fields := FieldNames(key);
    var named := seq(|key|, i requires 0 <= i < |key| => key[i].field + "_" + key[i].order);
    JoinLonger(fields, named, '_');
  }

  /** The indexes of a configured collection when index management starts: its own, or `_id_` alone once created. */
  function StartIndexes(db: map<string, set<string>>, collection: string): set<string> {
    if collection in db then db[collection] else {ID_INDEX}
  }

  /** The names created when the snapshot is `existing`: one per desired index whose desired name is not in it. */
  function CreatedNames(indexes: seq<IndexConfig>, existing: set<string>): set<string> {
    set ic | ic in indexes && DesiredName(ic) !in existing :: CreatedName(ic)
  }

  /** The names dropped when the snapshot is `existing`: every one but `_id_` that is not a desired name. */
  function DroppedNames(existing: set<string>, indexes: seq<IndexConfig>): set<string> {
    set n | n in existing && n != ID_INDEX && n !in DesiredNames(indexes)
  }

  /**
   * The index set a configured collection ends with, from the set it had
   * when its index snapshot was taken.
   */
  function ReconciledIndexes(existing: set<string>, indexes: Option<seq<IndexConfig>>): (r: set<string>)
    ensures indexes.None? ==> r == existing
    ensures indexes.Some? ==> forall n :: n in existing ==> (n in r <==> n == ID_INDEX || n in DesiredNames(indexes.value))
    ensures indexes.Some? ==> forall ic :: ic in indexes.value && DesiredName(ic) !in existing && CreatedName(ic) !in existing ==> CreatedName(ic) in r
    ensures indexes.Some? ==> forall n :: n in r && n !in existing ==> exists ic :: ic in indexes.value && DesiredName(ic) !in existing && CreatedName(ic) == n
  {
    if indexes.None? then existing
    else (existing + CreatedNames(indexes.value, existing)) - DroppedNames(existing, indexes.value)
  }

  /** The collection names that the configuration lists. */
  function ConfigNames(config: seq<CollectionConfig>): set<string> {
    set c | c in config :: c.name
  }

  /** Object keys are distinct. */
  predicate DistinctConfigNames(config: seq<CollectionConfig>) {
    forall i, j :: 0 <= i < j < |config| ==> config[i].name != config[j].name
  }

  predicate Distinct<T(==)>(s: seq<T>) {
    forall i, j :: 0 <= i < j < |s| ==> s[i] != s[j]
  }

  /** A listing of a set of names, each once, in some order the database chooses. */
  method Enumerate(s: set<string>) returns (r: seq<string>)
    ensures forall n :: n in r <==> n in s
    ensures Distinct(r)
  {
    r := [];
    var rest := s;
    while rest != {}
      invariant rest <= s
      invariant forall n :: n in r ==> n in s && n !in rest
      invariant forall n :: n in s ==> n in r || n in rest
      invariant Distinct(r)
      decreases rest
    {
      var n :| n in rest;
      r := r + [n];
      rest := rest - {n};
    }
  }

  /** The database, as far as the script sees it. */
  class Database {
    var collections: map<string, set<string>>

    constructor(collections: map<string, set<string>>)
      ensures this.collections == collections
    {
      this.collections := collections;
    }

    /** `db.getCollectionNames()`. */
    method GetCollectionNames() returns (names: seq<string>)
      ensures forall n :: n in names <==> n in collections
      ensures Distinct(names)
    {
      names := Enumerate(collections.Keys);
    }

    /** `db.createCollection(name)`: an existing name raises, which the script only prints. */
    method CreateCollection(name: string)
      modifies this
      ensures collections == if name in old(collections) then old(collections) else old(collections)[name := {ID_INDEX}]
    {
      if name !in collections {
        collections := collections[name := {ID_INDEX}];
      }
    }

    /** `getIndexes().map(idx => idx.name)`; a missing collection has none. */
    method IndexNames(collection: string) returns (names: seq<string>)
      ensures forall n :: n in names <==> collection in collections && n in collections[collection]
      ensures Distinct(names)
    {
      var s := if collection in collections then collections[collection] else {};
      names := Enumerate(s);
    }

    /** `createIndex(key, options)`: adds the index under the name MongoDB gives it, creating the collection if needed. */
    method CreateIndex(collection: string, ic: IndexConfig)
      modifies this
      ensures collections == old(collections)[collection := StartIndexes(old(collections), collection) + {CreatedName(ic)}]
    {
      collections := collections[collection := StartIndexes(collections, collection) + {CreatedName(ic)}];
    }

    /** `dropIndex(name)`: `_id_` and missing collections raise, which the script only prints. */
    method DropIndex(collection: string, name: string)
      modifies this
      ensures collections ==
        if collection in old(collections) && name != ID_INDEX then old(collections)[collection := old(collections)[collection] - {name}]
        else old(collections)
    {
      if collection in collections && name != ID_INDEX {
        collections := collections[collection := collections[collection] - {name}];
      }
    }

    /** `getCollection(name).drop()`. */
    method DropCollection(name: string)
      modifies this
      ensures collections == old(collections) - {name}
    {
      collections := collections - {name};
    }
  }

  /** The names created by the first `k` desired indexes. */
  function CreatedUpTo(indexes: seq<IndexConfig>, existing: set<string>, k: nat): set<string>
    requires k <= |indexes|
  {
    set i | 0 <= i < k && DesiredName(indexes[i]) !in existing :: CreatedName(indexes[i])
  }

  /** The names dropped among the first `k` entries of the index snapshot. */
  function DroppedUpTo(snapshot: seq<string>, desired: seq<string>, k: nat): set<string>
    requires k <= |snapshot|
  {
    set i | 0 <= i < k && snapshot[i] != ID_INDEX && snapshot[i] !in desired :: snapshot[i]
  }

  /**
   * The creation loop (lines 53-67): every desired index whose desired name
   * is not in the snapshot `existing` is created.
   */
  method CreateMissingIndexes(db: Database, collection: string, desired: seq<IndexConfig>, snapshot: seq<string>)
    requires collection in db.collections
    requires forall n :: n in snapshot <==> n in db.collections[collection]
    modifies db
    ensures db.collections == old(db.collections)[collection := old(db.collections)[collection] + CreatedNames(desired, old(db.collections)[collection])]
  {
    ghost var db0 := db.collections;
    ghost var existing := db.collections[collection];
    assert existing + CreatedUpTo(desired, existing, 0) == existing;
    assert db.collections == db0[collection := existing + CreatedUpTo(desired, existing, 0)];
    for k := 0 to |desired|
      invariant db.collections == db0[collection := existing + CreatedUpTo(desired, existing, k)]
    {
      var created := CreatedUpTo(desired, existing, k);
      if DesiredName(desired[k]) !in snapshot {
        db.CreateIndex(collection, desired[k]);
        assert CreatedUpTo(desired, existing, k + 1) == created + {CreatedName(desired[k])};
        assert existing + created + {CreatedName(desired[k])} == existing + CreatedUpTo(desired, existing, k + 1);
      } else {
        assert CreatedUpTo(desired, existing, k + 1) == created;
      }
    }
    assert CreatedUpTo(desired, existing, |desired|) == CreatedNames(desired, existing) by {
      forall n | n in CreatedNames(desired, existing)
        ensures n in CreatedUpTo(desired, existing, |desired|)
      {
        var ic :| ic in desired && DesiredName(ic) !in existing && CreatedName(ic) == n;
        var i :| 0 <= i < |desired| && desired[i] == ic;
      }
    }
  }

  /**
   * The drop loop (lines 70-82): every name of the snapshot `existing` but
   * `_id_` that is not a desired name is dropped.
   */
  method DropUndesiredIndexes(db: Database, collection: string, desired: seq<IndexConfig>, snapshot: seq<string>, ghost existing: set<string>)
    requires collection in db.collections
    requires forall n :: n in snapshot <==> n in existing
    modifies db
    ensures db.collections == old(db.collections)[collection := old(db.collections)[collection] - DroppedNames(existing, desired)]
  {
    ghost var db0 := db.collections;
    ghost var grown := db.collections[collection];
    var desiredNames := DesiredNames(desired);
    assert grown - DroppedUpTo(snapshot, desiredNames, 0) == grown;
    assert db.collections == db0[collection := grown - DroppedUpTo(snapshot, desiredNames, 0)];
    for k := 0 to |snapshot|
      invariant db.collections == db0[collection := grown - DroppedUpTo(snapshot, desiredNames, k)]
    {
      var name := snapshot[k];
      var dropped := DroppedUpTo(snapshot, desiredNames, k);
      if name != ID_INDEX && name !in desiredNames {
        db.DropIndex(collection, name);
        assert DroppedUpTo(snapshot, desiredNames, k + 1) == dropped + {name};
        assert grown - dropped - {name} == grown - DroppedUpTo(snapshot, desiredNames, k + 1);
      } else {
        assert DroppedUpTo(snapshot, desiredNames, k + 1) == dropped;
      }
    }
    assert DroppedUpTo(snapshot, desiredNames, |snapshot|) == DroppedNames(existing, desired) by {
      forall n | n in DroppedNames(existing, desired)
        ensures n in DroppedUpTo(snapshot, desiredNames, |snapshot|)
      {
        var i :| 0 <= i < |snapshot| && snapshot[i] == n;
      }
    }
  }

  /**
   * The index management of one configured collection (lines 46-83): take
   * the snapshot, create what is missing from it, then drop from it what is
   * not desired.
   */
  method ManageIndexes(db: Database, collection: string, indexes: Option<seq<IndexConfig>>)
    requires collection in db.collections
    modifies db
    ensures db.collections == old(db.collections)[collection := ReconciledIndexes(old(db.collections)[collection], indexes)]
  {
    if indexes.None? {
      assert db.collections == db.collections[collection := db.collections[collection]];
      return;
    }
    ghost var db0 := db.collections;
    ghost var existing := db.collections[collection];
    var snapshot := db.IndexNames(collection);
    CreateMissingIndexes(db, collection, indexes.value, snapshot);
    DropUndesiredIndexes(db, collection, indexes.value, snapshot, existing);
    assert db.collections == db0[collection := (existing + CreatedNames(indexes.value, existing)) - DroppedNames(existing, indexes.value)];
  }

  /** The names of the first `i` configured collections. */
  function NamesUpTo(config: seq<CollectionConfig>, i: nat): set<string>
    requires i <= |config|
  {
    set j | 0 <= j < i :: config[j].name
  }

  lemma ConfigNamesByIndex(config: seq<CollectionConfig>)
    ensures NamesUpTo(config, |config|) == ConfigNames(config)
  {
    forall n | n in ConfigNames(config)
      ensures n in NamesUpTo(config, |config|)
    {
      var c :| c in config && c.name == n;
      var j :| 0 <= j < |config| && config[j] == c;
    }
  }

  /**
   * The state after the collection loop has handled the first `i`
   * configurations, starting from `db0`: their names are added, each holds
   * its reconciled indexes, and every other collection is as it was.
   */
  ghost predicate ManagedUpTo(db0: map<string, set<string>>, cur: map<string, set<string>>, config: seq<CollectionConfig>, i: nat)
    requires i <= |config|
  {
    && cur.Keys == db0.Keys + NamesUpTo(config, i)
    && (forall j :: 0 <= j < i ==>
          cur[config[j].name] == ReconciledIndexes(StartIndexes(db0, config[j].name), config[j].indexes))
    && (forall n :: n in db0 && n !in NamesUpTo(config, i) ==> cur[n] == db0[n])
  }

  /** Handling configuration `i` on top of the first `i` keeps the loop's state. */
  lemma ManagedStep(db0: map<string, set<string>>, cur: map<string, set<string>>, config: seq<CollectionConfig>, i: nat)
    requires i < |config| && DistinctConfigNames(config)
    requires ManagedUpTo(db0, cur, config, i)
    ensures config[i].name !in NamesUpTo(config, i)
    ensures ManagedUpTo(db0, cur[config[i].name := ReconciledIndexes(StartIndexes(db0, config[i].name), config[i].indexes)], config, i + 1)
  {
    var c := config[i];
    var next := cur[c.name := ReconciledIndexes(StartIndexes(db0, c.name), c.indexes)];
    assert NamesUpTo(config, i + 1) == NamesUpTo(config, i) + {c.name};
    forall j | 0 <= j < i + 1
      ensures next[config[j].name] == ReconciledIndexes(StartIndexes(db0, config[j].name), config[j].indexes)
    {
      if j < i {
        assert config[j].name != c.name;
      }
    }
  }

  /** Once every configuration is handled, the configured names are all added and nothing else changed. */
  lemma ManagedAll(db0: map<string, set<string>>, cur: map<string, set<string>>, config: seq<CollectionConfig>)
    requires ManagedUpTo(db0, cur, config, |config|)
    ensures cur.Keys == db0.Keys + ConfigNames(config)
    ensures forall n :: n in db0 && n !in ConfigNames(config) ==> cur[n] == db0[n]
  {
    ConfigNamesByIndex(config);
  }

  /**
   * The collection loop (lines 29-85): create each configured collection
   * that the snapshot `existing` lacks and manage its indexes.
   */
  method ManageCollections(db: Database, config: seq<CollectionConfig>, existing: seq<string>)
    requires DistinctConfigNames(config)
    requires forall n :: n in existing <==> n in db.collections
    modifies db
    ensures db.collections.Keys == old(db.collections).Keys + ConfigNames(config)
    ensures forall j :: 0 <= j < |config| ==>
      db.collections[config[j].name] == ReconciledIndexes(StartIndexes(old(db.collections), config[j].name), config[j].indexes)
    ensures forall n :: n in old(db.collections) && n !in ConfigNames(config) ==> db.collections[n] == old(db.collections)[n]
  {
    ghost var db0 := db.collections;
    for i := 0 to |config|
      invariant ManagedUpTo(db0, db.collections, config, i)
    {
      var c := config[i];
      ghost var before := db.collections;
      ManagedStep(db0, before, config, i);
      if c.name !in existing {
        db.CreateCollection(c.name);
      }
      assert db.collections[c.name] == StartIndexes(db0, c.name);
      ManageIndexes(db, c.name, c.indexes);
      assert db.collections == before[c.name := ReconciledIndexes(StartIndexes(db0, c.name), c.indexes)];
    }
    ManagedAll(db0, db.collections, config);
  }

  /** The collection drop loop (lines 88-99): drop each snapshot collection that is not configured. */
  method DropUnconfigured(db: Database, existing: seq<string>, configured: set<string>)
    requires Distinct(existing)
    requires db.collections.Keys == configured + (set j | 0 <= j < |existing| :: existing[j])
    modifies db
    ensures db.collections.Keys == configured
    ensures forall n :: n in configured ==> db.collections[n] == old(db.collections)[n]
  {
    ghost var mid := db.collections;
    for i := 0 to |existing|
      invariant db.collections.Keys == configured + (set j | i <= j < |existing| :: existing[j])
      invariant forall n :: n in configured ==> db.collections[n] == mid[n]
    {
      var name := existing[i];
      if name !in configured {
        db.DropCollection(name);
      }
      assert (set j | i <= j < |existing| :: existing[j]) == (set j | i + 1 <= j < |existing| :: existing[j]) + {name};
      assert name !in (set j | i + 1 <= j < |existing| :: existing[j]);
    }
  }

  /**
   * The script from line 25 on: snapshot the collection names, create and
   * manage every configured collection, then drop every snapshot collection
   * that is not configured.
   */
  method Reconcile(db: Database, config: seq<CollectionConfig>)
    requires DistinctConfigNames(config)
    modifies db
    ensures db.collections.Keys == ConfigNames(config)
    ensures forall j :: 0 <= j < |config| ==>
      db.collections[config[j].name] == ReconciledIndexes(StartIndexes(old(db.collections), config[j].name), config[j].indexes)
  {
    var existing := db.GetCollectionNames();
    ManageCollections(db, config, existing);
    assert (set j | 0 <= j < |existing| :: existing[j]) == old(db.collections).Keys by {
      forall n | n in old(db.collections)
        ensures n in (set j | 0 <= j < |existing| :: existing[j])
      {
        var j :| 0 <= j < |existing| && existing[j] == n;
      }
    }
    var configured := ConfigNames(config);
    ConfigNamesByIndex(config);
    DropUnconfigured(db, existing, configured);
  }

  /** `collections_json` at line 4. */
  const CONFIG: seq<CollectionConfig> := [
    CollectionConfig("engine_execution_state", Some([
      IndexConfig(None, [KeyField("cloudCustomerId", "1")], Some(IndexOptions(Some("cloudCustomerId"), false))),
      IndexConfig(None, [KeyField("executionId", "1")], Some(IndexOptions(Some("executionId"), true)))])),
    CollectionConfig("engine_state_instructions", Some([
      IndexConfig(None, [KeyField("cloudCustomerId", "1")], Some(IndexOptions(Some("cloudCustomerId"), false))),
      IndexConfig(None, [KeyField("_ftsx", "1")], Some(IndexOptions(Some("iac"), false)))]))
  ]

  /** Every collection keeps `_id_` when it had it: new collections start with it and it is never dropped. */
  lemma IdIndexKept(db0: map<string, set<string>>, c: CollectionConfig)
    requires forall n :: n in db0 ==> ID_INDEX in db0[n]
    ensures ID_INDEX in ReconciledIndexes(StartIndexes(db0, c.name), c.indexes)
  {
  }

  /**
   * The configuration names its indexes under `options`, so the `iac` index
   * is compared as "_ftsx" but created as "iac": it is created by a run that
   * does not find it and dropped by a run that does.
   */
  lemma IacIndexOscillates(existing: set<string>)
    ensures "iac" in ReconciledIndexes(existing, CONFIG[1].indexes) <==> "iac" !in existing && "_ftsx" !in existing
  {
    var idx := CONFIG[1].indexes.value;
    var ccid := idx[0];
    var iac := idx[1];
    assert DesiredName(ccid) == "cloudCustomerId";
    assert DesiredName(iac) == "_ftsx";
    assert DesiredNames(idx) == ["cloudCustomerId", "_ftsx"];
    assert CreatedName(iac) == "iac";
    assert CreatedName(ccid) == "cloudCustomerId";
    if "iac" in ReconciledIndexes(existing, CONFIG[1].indexes) && "iac" !in existing {
      var ic :| ic in idx && DesiredName(ic) !in existing && ic.options.value.name.value == "iac";
    }
  }

  /** So on a collection without a "_ftsx" index, two consecutive runs disagree about whether `iac` exists. */
  lemma IacIndexFlipsEachRun(existing: set<string>)
    requires "_ftsx" !in existing
    ensures var once := ReconciledIndexes(existing, CONFIG[1].indexes);
      ("iac" in once) != ("iac" in ReconciledIndexes(once, CONFIG[1].indexes))
  {
    var idx := CONFIG[1].indexes.value;
    var once := ReconciledIndexes(existing, CONFIG[1].indexes);
    assert CreatedName(idx[0]) == "cloudCustomerId" && CreatedName(idx[1]) == "iac";
    assert "_ftsx" !in once;
    IacIndexOscillates(existing);
    IacIndexOscillates(once);
  }
}
