/**
  The slice of the object-relational mapper that the workflow views rely on:
  the rows of one model class keyed by primary key, `objects.get(pk=...)`,
  and `save()`, which inserts an object that has no primary key yet and
  writes the row of one that has.
 */
module Orm {
  import opened Wrappers
  import opened Fsm

  /** A persisted instance: its `state` column and its other columns by name. */
  datatype Record = Record(state: Option<string>, values: map<string, string>)

  /** The rows of one model class and the primary key the next insert receives. */
  datatype Db = Db(rows: map<nat, Record>, nextPk: nat)

  /** Every stored key is below the next key handed out, so inserts never clash. */
  predicate DbValid(db: Db)
  {
    forall k :: k in db.rows ==> k < db.nextPk
  }

  /** `save()` of an object with primary key `pk` and content `rec`: the key it
      ends up under and the rows afterwards. */
  function Saved(db: Db, pk: Option<nat>, rec: Record): (out: (nat, Db))
    requires DbValid(db)
    ensures DbValid(out.1)
    ensures out.1.rows == db.rows[out.0 := rec]
    ensures pk.Some? ==> out.0 == pk.value
    ensures pk.None? ==> out.0 !in db.rows
  {
    match pk
    case None => (db.nextPk, Db(db.rows[db.nextPk := rec], db.nextPk + 1))
    case Some(k) => (k, Db(db.rows[k := rec], if k < db.nextPk then db.nextPk else k + 1))
  }

  /** `Model.objects` of one model class. */
  class Store {
    const model: ModelClass
    var db: Db

    ghost predicate Valid()
      reads this
    {
      DbValid(db)
    }

    constructor (model: ModelClass)
      ensures Valid() && this.model == model && db == Db(map[], 0)
    {
      this.model := model;
      db := Db(map[], 0);
    }

    /** `objects.get(pk=pk)`: a fresh object loaded from the row, or `None` where
        the source raises `DoesNotExist`. */
    method Get(pk: nat) returns (r: Option<Instance>)
      ensures r.None? <==> pk !in db.rows
      ensures r.Some? ==> fresh(r.value) && r.value.fsm == model.fsm && r.value.pk == Some(pk)
      ensures r.Some? ==> Record(r.value.state, r.value.values) == db.rows[pk]
    {
      if pk in db.rows {
        var rec := db.rows[pk];
        var obj := new Instance(model.fsm, Some(pk), rec.state, rec.values);
        r := Some(obj);
      } else {
        r := None;
      }
    }

    /** `obj.save()`: stores the object's state and fields and gives it its key. */
    method Save(obj: Instance) returns (pk: nat)
      requires Valid()
      modifies this, obj
      ensures Valid()
      ensures (pk, db) == Saved(old(db), old(obj.pk), Record(old(obj.state), old(obj.values)))
      ensures obj.pk == Some(pk) && obj.state == old(obj.state) && obj.values == old(obj.values)
    {
      var out := Saved(db, obj.pk, Record(obj.state, obj.values));
      pk := out.0;
      db := out.1;
      obj.pk := Some(pk);
    }
  }
}
