/** The abstract document store the entity repository relies on: one collection
    per document class, a map from record id to record, and the unique indexes
    of the document class, which every save enforces.

    Each store operation exists twice: as a pure function over a `Collection`
    value (used by the specifications and the lemmas) and as a method of the
    `Table` class (used by the imperative model), whose contract ties the
    new state of the table to the function. */
module Store {

  datatype Option<T> = None | Some(value: T)

  /** Record ids, as the store hands them out (MongoDB's ObjectId). */
  type RecordId = nat

  /** What a store operation or a create-or-update call can raise.
      - ValidationError: mongoengine's ValidationError, raised by the repository itself.
      - DuplicateKey: an OperationError whose text carries 'E11000', i.e. a unique index refused the save.
      - OtherError: every other OperationError, with its message.
      - MultipleObjectsReturned: `objects.get` matched more than one record.
      - UnboundLocal: Python's UnboundLocalError, naming the variable. */
  datatype Error =
    | ValidationError(message: string)
    | DuplicateKey
    | OtherError(detail: string)
    | MultipleObjectsReturned
    | UnboundLocal(variable: string)

  datatype Outcome<T> = Ok(value: T) | Err(error: Error)

  /** The result of `objects.get(...)`: nothing, exactly one record, or several. */
  datatype Lookup = Missing | Found(id: RecordId) | Ambiguous

  /** The value of one collection: its records and the next id it will hand out. */
  datatype Collection<R> = Collection(rows: map<RecordId, R>, nextId: RecordId)

  /** What an operation returns together with the collection it leaves behind. */
  datatype Step<T, R> = Step(out: Outcome<T>, after: Collection<R>)

  /** No two distinct records clash on a unique index. */
  ghost predicate Unique<R>(rows: map<RecordId, R>, clash: (R, R) -> bool) {
    forall i, j :: i in rows && j in rows && i != j ==> !clash(rows[i], rows[j])
  }

  /** The invariant of a collection: its indexes hold and every id is below the next one. */
  ghost predicate WellFormed<R>(c: Collection<R>, clash: (R, R) -> bool) {
    && (forall id :: id in c.rows ==> id < c.nextId)
    && Unique(c.rows, clash)
  }

  /** Some record other than `self` clashes with `rec` on a unique index. */
  predicate ClashesWith<R>(rows: map<RecordId, R>, clash: (R, R) -> bool, rec: R, self: Option<RecordId>) {
    exists i :: i in rows && Some(i) != self && (clash(rows[i], rec) || clash(rec, rows[i]))
  }

  /** Some record satisfies the query. */
  ghost predicate Taken<R>(rows: map<RecordId, R>, matches: R -> bool) {
    exists i :: i in rows && matches(rows[i])
  }

  /** `objects.get(query)`: the one record the query matches, or the reason there is not one. */
  ghost function Find<R>(rows: map<RecordId, R>, matches: R -> bool): (r: Lookup)
    ensures r == Missing <==> !Taken(rows, matches)
    ensures r.Found? ==> r.id in rows && matches(rows[r.id])
    ensures r.Found? ==> forall j :: j in rows && matches(rows[j]) ==> j == r.id
    ensures r == Ambiguous <==>
              exists i, j :: i in rows && j in rows && i != j && matches(rows[i]) && matches(rows[j])
  {
    if !Taken(rows, matches) then Missing
    else
      var i :| i in rows && matches(rows[i]);
      if exists j :: j in rows && matches(rows[j]) && j != i then Ambiguous else Found(i)
  }

  /** Saving a new document: fails with the store's error, or with a duplicate key
      when a unique index refuses it, or stores it under a fresh id. */
  function InsertStep<R>(c: Collection<R>, clash: (R, R) -> bool, rec: R, fault: Option<string>): (r: Step<RecordId, R>)
    ensures WellFormed(c, clash) ==> WellFormed(r.after, clash)
    ensures r.out.Ok? ==> r.out.value == c.nextId && r.after == Collection(c.rows[c.nextId := rec], c.nextId + 1)
    ensures r.out.Ok? && WellFormed(c, clash) ==> c.nextId !in c.rows
    ensures r.out.Err? ==> r.after == c
    ensures r.out == Err(DuplicateKey) <==> fault.None? && ClashesWith(c.rows, clash, rec, None)
    ensures r.out.Ok? <==> fault.None? && !ClashesWith(c.rows, clash, rec, None)
    ensures fault.Some? ==> r.out == Err(OtherError(fault.value))
  {
    if fault.Some? then Step(Err(OtherError(fault.value)), c)
    else if ClashesWith(c.rows, clash, rec, None) then Step(Err(DuplicateKey), c)
    else Step(Ok(c.nextId), Collection(c.rows[c.nextId := rec], c.nextId + 1))
  }

  /** Saving a document that is already stored under `id`: fails with the store's
      error, or with a duplicate key when another record clashes, or replaces it. */
  function UpdateStep<R>(c: Collection<R>, clash: (R, R) -> bool, id: RecordId, rec: R, fault: Option<string>): (r: Step<(), R>)
    requires id in c.rows
    ensures WellFormed(c, clash) ==> WellFormed(r.after, clash)
    ensures r.out.Ok? ==> r.after == c.(rows := c.rows[id := rec])
    ensures r.out.Err? ==> r.after == c
    ensures r.out.Ok? <==> fault.None? && !ClashesWith(c.rows, clash, rec, Some(id))
    ensures r.out == Err(DuplicateKey) <==> fault.None? && ClashesWith(c.rows, clash, rec, Some(id))
    ensures fault.Some? ==> r.out == Err(OtherError(fault.value))
  {
    if fault.Some? then Step(Err(OtherError(fault.value)), c)
    else if ClashesWith(c.rows, clash, rec, Some(id)) then Step(Err(DuplicateKey), c)
    else Step(Ok(()), c.(rows := c.rows[id := rec]))
  }

  /** The step another writer takes between a lookup and the insert that follows
      it: it saves its own record (or nothing), under the same unique indexes. */
  function OtherWriter<R>(c: Collection<R>, clash: (R, R) -> bool, rival: Option<R>): (r: Collection<R>)
    ensures WellFormed(c, clash) ==> WellFormed(r, clash)
    ensures r.rows.Keys >= c.rows.Keys
    ensures WellFormed(c, clash) ==> forall id :: id in c.rows ==> r.rows[id] == c.rows[id]
    ensures rival.Some? && !ClashesWith(c.rows, clash, rival.value, None) ==>
              r == Collection(c.rows[c.nextId := rival.value], c.nextId + 1)
    ensures rival.None? || ClashesWith(c.rows, clash, rival.value, None) ==> r == c
  {
    if rival.None? then c else InsertStep(c, clash, rival.value, None).after
  }

  /** The ids below `n` whose records `keep` accepts, in ascending order. */
  function IdsWhere<R>(rows: map<RecordId, R>, keep: R -> bool, n: nat): (r: seq<RecordId>)
    ensures forall id :: id in r <==> id < n && id in rows && keep(rows[id])
    ensures forall k :: 0 <= k < |r| ==> r[k] < n
    ensures forall i, j :: 0 <= i < j < |r| ==> r[i] < r[j]
  {
    if n == 0 then []
    else
      var rest := IdsWhere(rows, keep, n - 1);
      if n - 1 in rows && keep(rows[n - 1]) then rest + [n - 1] else rest
  }

  /** One collection of the document store. `clash` is its set of unique
      indexes: two records clash when they agree on the fields of one of them. */
  class Table<R> {
    var rows: map<RecordId, R>
    var nextId: RecordId
    const clash: (R, R) -> bool

    ghost function State(): Collection<R>
      reads this
    {
      Collection(rows, nextId)
    }

    ghost predicate Valid()
      reads this
    {
      WellFormed(State(), clash)
    }

    constructor (clash: (R, R) -> bool)
      ensures Valid() && this.clash == clash
      ensures rows == map[] && nextId == 0
    {
      this.clash := clash;
      rows := map[];
      nextId := 0;
    }

    /** `objects.get(query)`. */
    method Get(matches: R -> bool) returns (r: Lookup)
      ensures r == Find(rows, matches)
    {
      if !exists i :: i in rows && matches(rows[i]) {
        return Missing;
      }
      var i :| i in rows && matches(rows[i]);
      if exists j :: j in rows && matches(rows[j]) && j != i {
        return Ambiguous;
      }
      return Found(i);
    }

    /** `save()` of a document that has no id yet. */
    method Insert(rec: R, fault: Option<string>) returns (r: Outcome<RecordId>)
      requires Valid()
      modifies this
      ensures Valid()
      ensures Step(r, State()) == InsertStep(old(State()), clash, rec, fault)
    {
      if fault.Some? {
        return Err(OtherError(fault.value));
      }
      if exists i :: i in rows && (clash(rows[i], rec) || clash(rec, rows[i])) {
        return Err(DuplicateKey);
      }
      r := Ok(nextId);
      rows := rows[nextId := rec];
      nextId := nextId + 1;
    }

    /** `save()` of a document fetched from or saved to this collection. */
    method Update(id: RecordId, rec: R, fault: Option<string>) returns (r: Outcome<()>)
      requires Valid() && id in rows
      modifies this
      ensures Valid()
      ensures Step(r, State()) == UpdateStep(old(State()), clash, id, rec, fault)
    {
      if fault.Some? {
        return Err(OtherError(fault.value));
      }
      if exists i :: i in rows && i != id && (clash(rows[i], rec) || clash(rec, rows[i])) {
        return Err(DuplicateKey);
      }
      r := Ok(());
      rows := rows[id := rec];
    }
  }
}
