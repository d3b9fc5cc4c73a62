/**
  The document store (db/base.py): idempotent upserts keyed by tenant and fingerprint,
  user-controlled flags, and the novelty mark that alerts consume.
*/
module Repository {
  datatype Value = Bool(b: bool) | Time(t: real) | Text(s: string)

  type Doc = map<string, Value>

  /** Documents are unique by tenant and fingerprint. */
  type Key = (string, string)

  type Docs = map<Key, Doc>

  const IMMUTABLE := {"tenant_id", "program_id", "fingerprint", "first_seen", "created_at", "is_new"}

  /** A model names its tenant and its fingerprint. */
  predicate IsModel(m: Doc) {
    "tenant_id" in m && m["tenant_id"].Text? && "fingerprint" in m && m["fingerprint"].Text?
  }

  function KeyOf(m: Doc): Key
    requires IsModel(m)
  {
    (m["tenant_id"].s, m["fingerprint"].s)
  }

  // ----- what one upsert writes -----------------------------------------------------

  function Only(m: Doc, keys: set<string>): Doc {
    map k | k in m && k in keys :: m[k]
  }

  /** Written when the document is new. */
  function OnInsert(m: Doc, keep: set<string>, now: real): Doc {
    map["first_seen" := Time(now), "created_at" := Time(now)] + Only(m, keep) + map["is_new" := Bool(true)]
  }

  /** Written always. */
  function Volatile(m: Doc, keep: set<string>, now: real): Doc {
    Only(m, m.Keys - keep) + map["last_seen" := Time(now), "updated_at" := Time(now)]
  }

  function Upserted(docs: Docs, m: Doc, preserve: set<string>, now: real): Docs
    requires IsModel(m)
  {
    var keep := IMMUTABLE + preserve;
    var k := KeyOf(m);
    docs[k := (if k in docs then docs[k] else OnInsert(m, keep, now)) + Volatile(m, keep, now)]
  }

  function Flagged(docs: Docs, key: Key, field: string, value: Value, now: real): Docs {
    if key in docs then docs[key := docs[key][field := value]["updated_at" := Time(now)]] else docs
  }

  function Cleared(docs: Docs, tenant: string, fingerprints: set<string>): Docs {
    map k | k in docs :: if k.0 == tenant && k.1 in fingerprints then docs[k]["is_new" := Bool(false)] else docs[k]
  }

  ghost function Size(docs: Docs): nat { |docs.Keys| }

  lemma UpsertedKeys(docs: Docs, m: Doc, preserve: set<string>, now: real)
    requires IsModel(m)
    ensures Upserted(docs, m, preserve, now).Keys == docs.Keys + {KeyOf(m)}
    ensures Size(Upserted(docs, m, preserve, now)) == Size(docs) + if KeyOf(m) in docs then 0 else 1
  {
    hide Volatile, OnInsert;
    assert Upserted(docs, m, preserve, now).Keys == docs.Keys + {KeyOf(m)};
    if KeyOf(m) in docs { assert docs.Keys + {KeyOf(m)} == docs.Keys; }
  }

  ghost predicate AreModels(models: seq<Doc>) {
    forall i :: 0 <= i < |models| ==> IsModel(models[i])
  }

  ghost function KeysOf(models: seq<Doc>): set<Key>
    requires AreModels(models)
  {
    if models == [] then {} else KeysOf(models[..|models| - 1]) + {KeyOf(models[|models| - 1])}
  }

  lemma KeysOfPrefixes(models: seq<Doc>)
    requires AreModels(models)
    ensures KeysOf(models[..0]) == {}
    ensures forall i :: 0 <= i < |models| ==> KeysOf(models[..i + 1]) == KeysOf(models[..i]) + {KeyOf(models[i])}
  {
    forall i | 0 <= i < |models| ensures KeysOf(models[..i + 1]) == KeysOf(models[..i]) + {KeyOf(models[i])} {
      assert models[..i + 1][..i] == models[..i];
    }
  }

  class Repository {
    const preserve: set<string>
    var docs: Docs

    constructor (preserve: set<string>)
      ensures this.preserve == preserve && docs == map[]
    {
      this.preserve := preserve;
      docs := map[];
    }

    /** Sorts the fields of a model into those kept once written and the others. */
    static method Partition(m: Doc, keep: set<string>) returns (kept: Doc, others: Doc)
      ensures kept == Only(m, keep) && others == Only(m, m.Keys - keep)
    {
      kept, others := map[], map[];
      var todo := m.Keys;
      while todo != {}
        invariant todo <= m.Keys
        invariant kept == Only(m, keep - todo)
        invariant others == Only(m, m.Keys - keep - todo)
      {
        var field :| field in todo;
        todo := todo - {field};
        if field in keep {
          kept := kept[field := m[field]];
        } else {
          others := others[field := m[field]];
        }
      }
      assert keep - todo == keep && m.Keys - keep - todo == m.Keys - keep;
    }

    method Upsert(m: Doc, now: real) returns (inserted: bool)
      requires IsModel(m)
      modifies this
      ensures docs == Upserted(old(docs), m, preserve, now)
      ensures inserted <==> (m["tenant_id"].s, m["fingerprint"].s) !in old(docs)
      ensures docs.Keys == old(docs).Keys + {(m["tenant_id"].s, m["fingerprint"].s)}
    {
      hide Only;
      var keep := IMMUTABLE + preserve;
      var setOnInsert, setFields := Partition(m, keep);
      if "first_seen" !in setOnInsert { setOnInsert := setOnInsert["first_seen" := Time(now)]; }
      if "created_at" !in setOnInsert { setOnInsert := setOnInsert["created_at" := Time(now)]; }
      setOnInsert := setOnInsert["is_new" := Bool(true)];
      setFields := setFields["last_seen" := Time(now)]["updated_at" := Time(now)];
      assert setOnInsert == OnInsert(m, keep, now);
      assert setFields == Volatile(m, keep, now);
      hide OnInsert, Volatile;
      var key := KeyOf(m);
      inserted := key !in docs;
      if inserted {
        docs := docs[key := setOnInsert + setFields];
      } else {
        docs := docs[key := docs[key] + setFields];
      }
    }

    /** The number of new documents is what the collection grows by, even when a batch
        names a document twice. */
    method UpsertMany(models: seq<Doc>, clock: nat -> real) returns (total: nat, new_: nat)
      requires AreModels(models)
      modifies this
      ensures total == |models| && new_ == Size(docs) - Size(old(docs))
      ensures docs.Keys == old(docs).Keys + KeysOf(models)
      ensures AreOps(Observations(models, clock))
              && docs == Replay(old(docs), Observations(models, clock), preserve)
    {
      hide Upserted, KeyOf, KeysOf, Size, Replay;
      total, new_ := 0, 0;
      ObservedNone(old(docs), models, clock, preserve);
      KeysOfPrefixes(models);
      for i := 0 to |models|
        invariant total == i && Size(docs) == Size(old(docs)) + new_
        invariant docs.Keys == old(docs).Keys + KeysOf(models[..i])
        invariant docs == Replay(old(docs), Observations(models, clock)[..i], preserve)
      {
        ObservedStep(old(docs), models, clock, preserve, i);
        UpsertedKeys(docs, models[i], preserve, clock(i));
        var inserted := Upsert(models[i], clock(i));
        total := total + 1;
        if inserted { new_ := new_ + 1; }
      }
      assert models[..|models|] == models;
      assert Observations(models, clock)[..|models|] == Observations(models, clock);
    }

    method SetFlag(tenant: string, fingerprint: string, field: string, value: Value, now: real) returns (matched: bool)
      modifies this
      ensures docs == Flagged(old(docs), (tenant, fingerprint), field, value, now)
      ensures matched <==> (tenant, fingerprint) in old(docs)
      ensures docs == if !matched then old(docs)
                      else old(docs)[(tenant, fingerprint) :=
                             old(docs)[(tenant, fingerprint)][field := value]["updated_at" := Time(now)]]
    {
      var key := (tenant, fingerprint);
      matched := key in docs;
      if matched {
        docs := docs[key := docs[key][field := value]["updated_at" := Time(now)]];
      }
    }

    method ClearIsNew(tenant: string, fingerprints: set<string>)
      modifies this
      ensures docs == Cleared(old(docs), tenant, fingerprints)
      ensures docs.Keys == old(docs).Keys
      ensures forall k :: k in docs && (k.0 != tenant || k.1 !in fingerprints) ==> docs[k] == old(docs)[k]
      ensures forall fp :: fp in fingerprints && (tenant, fp) in docs ==>
                docs[(tenant, fp)] == old(docs)[(tenant, fp)]["is_new" := Bool(false)]
    {
      var todo := fingerprints;
      var before := docs;
      while todo != {}
        invariant todo <= fingerprints
        invariant docs == Cleared(before, tenant, fingerprints - todo)
      {
        var fp :| fp in todo;
        todo := todo - {fp};
        if (tenant, fp) in docs {
          docs := docs[(tenant, fp) := docs[(tenant, fp)]["is_new" := Bool(false)]];
        }
      }
      assert fingerprints - todo == fingerprints;
    }
  }

  /** Observing the same thing again changes nothing but the time it was last seen, and
      nothing at all if the clock stands still. */
  lemma UpsertIsIdempotent(docs: Docs, m: Doc, preserve: set<string>, now: real, later: real)
    requires IsModel(m)
    ensures var once := Upserted(docs, m, preserve, now);
            Upserted(once, m, preserve, later)
            == once[KeyOf(m) := once[KeyOf(m)]["last_seen" := Time(later)]["updated_at" := Time(later)]]
    ensures Upserted(Upserted(docs, m, preserve, now), m, preserve, now) == Upserted(docs, m, preserve, now)
  {
    hide OnInsert, Volatile;
    var keep, k := IMMUTABLE + preserve, KeyOf(m);
    var once := Upserted(docs, m, preserve, now);
    var doc := if k in docs then docs[k] else OnInsert(m, keep, now);
    VolatileTwice(doc, m, keep, now, later);
    VolatileTwice(doc, m, keep, now, now);
    assert once[k := once[k]] == once;
  }

  lemma VolatileTwice(doc: Doc, m: Doc, keep: set<string>, now: real, later: real)
    ensures var once := doc + Volatile(m, keep, now);
            && once + Volatile(m, keep, later) == once["last_seen" := Time(later)]["updated_at" := Time(later)]
            && (later == now ==> once + Volatile(m, keep, later) == once)
  {}

  /** What an upsert leaves in a field.  The times last seen and updated are always now; a
      known document keeps its identity, its creation and its novelty, the preserved fields
      and whatever the model does not mention, and takes everything else from the model; a
      new document is the model, marked new, with the present as the time of its creation
      unless the model gives one.  No other document changes. */
  lemma UpsertWrites(docs: Docs, m: Doc, preserve: set<string>, now: real, field: string)
    requires IsModel(m)
    ensures var doc := Upserted(docs, m, preserve, now)[KeyOf(m)];
            var known := KeyOf(m) in docs;
            var kept := field in {"tenant_id", "program_id", "fingerprint", "first_seen", "created_at", "is_new"}
                        || field in preserve;
            if field == "last_seen" || field == "updated_at" then field in doc && doc[field] == Time(now)
            else if known && (kept || field !in m) then
              && (field in doc <==> field in docs[KeyOf(m)])
              && (field in doc ==> doc[field] == docs[KeyOf(m)][field])
            else if field == "is_new" then field in doc && doc[field] == Bool(true)
            else if field in m then field in doc && doc[field] == m[field]
            else if field == "first_seen" || field == "created_at" then field in doc && doc[field] == Time(now)
            else field !in doc
    ensures forall k :: k in docs && k != KeyOf(m) ==> Upserted(docs, m, preserve, now)[k] == docs[k]
  {
    var keep := IMMUTABLE + preserve;
    OnlyAt(m, keep, field);
    OnlyAt(m, m.Keys - keep, field);
  }

  lemma OnlyAt(m: Doc, keys: set<string>, field: string)
    ensures field in Only(m, keys) <==> field in m && field in keys
    ensures field in Only(m, keys) ==> Only(m, keys)[field] == m[field]
  {}

  // ----- runs of the store ----------------------------------------------------------

  /** Delivery of alerts marks the delivered documents as seen. */
  datatype Op =
    | Upsert(m: Doc, now: real)
    | SetFlag(key: Key, field: string, value: Value, now: real)
    | ClearIsNew(tenant: string, fingerprints: set<string>)
    | Notify(tenant: string, delivered: set<string>)

  ghost predicate WellFormed(op: Op) { op.Upsert? ==> IsModel(op.m) }

  ghost function After(docs: Docs, op: Op, preserve: set<string>): Docs
    requires WellFormed(op)
  {
    match op
    case Upsert(m, now) => Upserted(docs, m, preserve, now)
    case SetFlag(key, field, value, now) => Flagged(docs, key, field, value, now)
    case ClearIsNew(tenant, fps) => Cleared(docs, tenant, fps)
    case Notify(tenant, delivered) => Cleared(docs, tenant, delivered)
  }

  ghost predicate AreOps(ops: seq<Op>) {
    forall i :: 0 <= i < |ops| ==> WellFormed(ops[i])
  }

  ghost function Replay(docs: Docs, ops: seq<Op>, preserve: set<string>): Docs
    requires AreOps(ops)
  {
    if ops == [] then docs
    else After(Replay(docs, ops[..|ops| - 1], preserve), ops[|ops| - 1], preserve)
  }

  /** A batch of models, upserted one after the other. */
  ghost function Observations(models: seq<Doc>, clock: nat -> real): (ops: seq<Op>)
    ensures |ops| == |models| && forall i :: 0 <= i < |ops| ==> ops[i] == Upsert(models[i], clock(i))
  {
    seq(|models|, i requires 0 <= i < |models| => Upsert(models[i], clock(i)))
  }

  lemma ObservedNone(docs: Docs, models: seq<Doc>, clock: nat -> real, preserve: set<string>)
    requires AreModels(models)
    ensures AreOps(Observations(models, clock))
    ensures forall i :: 0 <= i <= |models| ==> AreOps(Observations(models, clock)[..i])
    ensures Replay(docs, Observations(models, clock)[..0], preserve) == docs
  {}

  lemma ObservedStep(docs: Docs, models: seq<Doc>, clock: nat -> real, preserve: set<string>, i: nat)
    requires AreModels(models) && i < |models| && AreOps(Observations(models, clock)[..i])
    ensures AreOps(Observations(models, clock)[..i + 1])
    ensures Replay(docs, Observations(models, clock)[..i + 1], preserve)
            == Upserted(Replay(docs, Observations(models, clock)[..i], preserve), models[i], preserve, clock(i))
  {
    hide Upserted;
    var ops := Observations(models, clock);
    assert ops[..i + 1][..i] == ops[..i];
  }

  ghost predicate Inserts(docs: Docs, op: Op, key: Key)
    requires WellFormed(op)
  {
    op.Upsert? && KeyOf(op.m) == key && key !in docs
  }

  ghost predicate IsNew(docs: Docs, key: Key) {
    key in docs && "is_new" in docs[key] && docs[key]["is_new"] == Bool(true)
  }

  /** Known, and no longer new. */
  ghost predicate IsSeen(docs: Docs, key: Key) {
    key in docs && !IsNew(docs, key)
  }

  ghost predicate RaisesNovelty(op: Op) {
    op.SetFlag? && op.field == "is_new" && op.value == Bool(true)
  }

  /** Documents are never lost, and only a deliberate flag makes one new again. */
  lemma StepKeepsSeen(docs: Docs, op: Op, preserve: set<string>, key: Key)
    requires WellFormed(op) && key in docs
    ensures key in After(docs, op, preserve)
    ensures IsSeen(docs, key) ==> (IsNew(After(docs, op, preserve), key) <==> RaisesNovelty(op) && op.key == key)
  {}

  lemma {:induction false} RunKeepsSeen(docs: Docs, ops: seq<Op>, preserve: set<string>, key: Key)
    requires AreOps(ops) && key in docs
    ensures key in Replay(docs, ops, preserve)
    ensures IsSeen(docs, key) && (forall i :: 0 <= i < |ops| ==> !RaisesNovelty(ops[i])) ==>
              IsSeen(Replay(docs, ops, preserve), key)
  {
    hide After;
    if ops != [] {
      var front := ops[..|ops| - 1];
      RunKeepsSeen(docs, front, preserve, key);
      StepKeepsSeen(Replay(docs, front, preserve), ops[|ops| - 1], preserve, key);
    }
  }

  lemma {:induction false} ReplayConcat(docs: Docs, a: seq<Op>, b: seq<Op>, preserve: set<string>)
    requires AreOps(a) && AreOps(b)
    ensures AreOps(a + b) && Replay(docs, a + b, preserve) == Replay(Replay(docs, a, preserve), b, preserve)
  {
    hide After;
    if b == [] {
      assert a + b == a;
    } else {
      var n := |b| - 1;
      ReplayConcat(docs, a, b[..n], preserve);
      assert (a + b)[..|a + b| - 1] == a + b[..n];
    }
  }

  lemma ReplayBetween(docs: Docs, ops: seq<Op>, preserve: set<string>, i: nat, j: nat)
    requires AreOps(ops) && i <= j <= |ops|
    ensures AreOps(ops[..i]) && AreOps(ops[i..j]) && AreOps(ops[..j])
    ensures Replay(docs, ops[..j], preserve) == Replay(Replay(docs, ops[..i], preserve), ops[i..j], preserve)
  {
    ReplayConcat(docs, ops[..i], ops[i..j], preserve);
    assert ops[..i] + ops[i..j] == ops[..j];
  }

  /** A key is inserted once in any run. */
  lemma InsertedOnce(docs: Docs, ops: seq<Op>, preserve: set<string>, key: Key, i: nat, j: nat)
    requires AreOps(ops) && i < j < |ops|
    requires Inserts(Replay(docs, ops[..i], preserve), ops[i], key)
    ensures !Inserts(Replay(docs, ops[..j], preserve), ops[j], key)
  {
    ReplayBetween(docs, ops, preserve, i, i + 1);
    assert ops[i..i + 1] == [ops[i]] && [ops[i]][..0] == [];
    ReplayBetween(docs, ops, preserve, i + 1, j);
    RunKeepsSeen(Replay(docs, ops[..i + 1], preserve), ops[i + 1..j], preserve, key);
  }

  /** What is sent out is new when it is sent. */
  ghost predicate IsTrail(docs: Docs, ops: seq<Op>, preserve: set<string>) {
    && AreOps(ops) && (forall i :: 0 <= i < |ops| ==> !RaisesNovelty(ops[i]))
    && forall i :: 0 <= i < |ops| && ops[i].Notify? ==>
         forall fp :: fp in ops[i].delivered ==> IsNew(Replay(docs, ops[..i], preserve), (ops[i].tenant, fp))
  }

  /** An alert goes out once: of the notify runs of a trail, however upserts, flags and
      clearings fall in between, no two deliver the same document. */
  lemma DeliveredOnce(docs: Docs, ops: seq<Op>, preserve: set<string>, i: nat, j: nat)
    requires IsTrail(docs, ops, preserve) && i < j < |ops|
    requires ops[i].Notify? && ops[j].Notify? && ops[i].tenant == ops[j].tenant
    ensures ops[i].delivered !! ops[j].delivered
  {
    hide Replay, After, IsSeen, IsNew;
    var tenant := ops[i].tenant;
    forall fp | fp in ops[i].delivered ensures fp !in ops[j].delivered {
      assert IsNew(Replay(docs, ops[..i], preserve), (tenant, fp));
      DeliveryMarksSeen(docs, ops, preserve, i, fp);
      ReplayBetween(docs, ops, preserve, i + 1, j);
      RunKeepsSeen(Replay(docs, ops[..i + 1], preserve), ops[i + 1..j], preserve, (tenant, fp));
      SeenIsNotNew(Replay(docs, ops[..j], preserve), (tenant, fp));
    }
  }

  lemma SeenIsNotNew(docs: Docs, key: Key)
    ensures IsSeen(docs, key) ==> !IsNew(docs, key)
  {}

  lemma DeliveryMarksSeen(docs: Docs, ops: seq<Op>, preserve: set<string>, i: nat, fp: string)
    requires AreOps(ops) && i < |ops| && ops[i].Notify? && fp in ops[i].delivered
    requires AreOps(ops[..i]) && IsNew(Replay(docs, ops[..i], preserve), (ops[i].tenant, fp))
    ensures AreOps(ops[..i + 1])
    ensures (ops[i].tenant, fp) in Replay(docs, ops[..i + 1], preserve)
    ensures IsSeen(Replay(docs, ops[..i + 1], preserve), (ops[i].tenant, fp))
  {
    assert ops[..i + 1][..i] == ops[..i];
  }

  ghost predicate SetsField(op: Op, key: Key, field: string) {
    || (op.SetFlag? && op.key == key && op.field == field)
    || (field == "is_new" && (op.ClearIsNew? || op.Notify?))
  }

  /** A preserved or immutable field is written on insertion and then changes only by an
      explicit flag, whatever later observations say. */
  lemma {:induction false} PreservedFieldsSurvive(docs: Docs, ops: seq<Op>, preserve: set<string>, key: Key,
                                                  field: string)
    requires AreOps(ops) && key in docs && field in IMMUTABLE + preserve
    requires field != "last_seen" && field != "updated_at"
    requires forall i :: 0 <= i < |ops| ==> !SetsField(ops[i], key, field)
    ensures key in Replay(docs, ops, preserve)
    ensures field in Replay(docs, ops, preserve)[key] <==> field in docs[key]
    ensures field in docs[key] ==> Replay(docs, ops, preserve)[key][field] == docs[key][field]
  {
    hide After, SetsField;
    if ops != [] {
      var front := ops[..|ops| - 1];
      PreservedFieldsSurvive(docs, front, preserve, key, field);
      StepKeepsField(Replay(docs, front, preserve), ops[|ops| - 1], preserve, key, field);
    }
  }

  lemma StepKeepsField(docs: Docs, op: Op, preserve: set<string>, key: Key, field: string)
    requires WellFormed(op) && key in docs && field in IMMUTABLE + preserve
    requires field != "last_seen" && field != "updated_at" && !SetsField(op, key, field)
    ensures key in After(docs, op, preserve)
    ensures field in After(docs, op, preserve)[key] <==> field in docs[key]
    ensures field in docs[key] ==> After(docs, op, preserve)[key][field] == docs[key][field]
  {}
}
