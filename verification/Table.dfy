/** sqliter.cpp: the registration table `pers` and the key table `mid`, as the meaning of each SQL
    statement on a sequence of rows in rowid order. */
module Tables {
  import opened Bytes
  import opened Calendar
  import opened Text
  import opened Xtea
  import opened Records

  /** A row of `pers`: Id, D (seconds since the epoch), I, K, PA, PP, T, R and MK0 to MK3. */
  datatype Row = Row(id: nat, d: int, name: seq<u8>, k: int, pa: int, pp: int, t: int, r: int,
                     mk0: int, mk1: int, mk2: int, mk3: int)

  /** The rows and the next autoincrement Id. */
  datatype Db = Db(rows: seq<Row>, nextId: nat)

  /** What a registration writes. */
  datatype Entry = Entry(name: seq<u8>, k: int, a: u32, p: u16, typ: bool, keys: Key)

  function RowOf(e: Entry, id: nat, refs: int, now: int): Row {
    Row(id, now, e.name, e.k, e.a, e.p, if e.typ then 1 else 0, refs,
        e.keys.k0, e.keys.k1, e.keys.k2, e.keys.k3)
  }

  /** A row as get_pers reads it, every column through sqlite3_column_int. */
  function RowIpp(r: Row): Ipp {
    Ipp(ToU32(ColumnInt(r.pa)), ToU16(ColumnInt(r.pp)), ColumnInt(r.t),
        Key(ToU32(ColumnInt(r.mk0)), ToU32(ColumnInt(r.mk1)), ToU32(ColumnInt(r.mk2)), ToU32(ColumnInt(r.mk3))))
  }

  /** Address, role and keys survive the column types: what get_pers reads is what was stored. */
  lemma RowReadsBack(e: Entry, id: nat, refs: int, now: int)
    ensures RowIpp(RowOf(e, id, refs, now)) == Ipp(e.a, e.p, if e.typ then 1 else 0, e.keys)
  {
    StoredWordReturns(e.a);
    StoredHalfReturns(e.p);
    StoredWordReturns(e.keys.k0);
    StoredWordReturns(e.keys.k1);
    StoredWordReturns(e.keys.k2);
    StoredWordReturns(e.keys.k3);
  }

  /** get_pers: one entry a row, in rowid order. */
  function Pers(rows: seq<Row>): (r: seq<Ipp>)
    ensures |r| == |rows|
    ensures forall i :: 0 <= i < |rows| ==> r[i] == RowIpp(rows[i])
  {
    seq(|rows|, i requires 0 <= i < |rows| => RowIpp(rows[i]))
  }

  // ---------- the statements

  /** "SELECT R ... WHERE I=name": the last R read, or 0. */
  function LastRef(rows: seq<Row>, name: seq<u8>): int {
    if rows == [] then 0
    else if rows[|rows| - 1].name == name then ColumnInt(rows[|rows| - 1].r)
    else LastRef(rows[..|rows| - 1], name)
  }

  predicate HasK(rows: seq<Row>, k: int) {
    exists r :: r in rows && r.k == k
  }

  /** "UPDATE pers SET D=datetime('now') WHERE ..." */
  function Touch(rows: seq<Row>, which: Row -> bool, now: int): (r: seq<Row>)
    ensures |r| == |rows|
    ensures forall i :: 0 <= i < |rows| ==> r[i] == if which(rows[i]) then rows[i].(d := now) else rows[i]
  {
    seq(|rows|, i requires 0 <= i < |rows| => if which(rows[i]) then rows[i].(d := now) else rows[i])
  }

  /** "DELETE FROM pers WHERE ..." */
  function Delete(rows: seq<Row>, which: Row -> bool): seq<Row> {
    if rows == [] then []
    else (if which(rows[0]) then [] else [rows[0]]) + Delete(rows[1..], which)
  }

  function WithK(k: int): Row -> bool {
    (r: Row) => r.k == k
  }

  function WithAddress(pa: int, pp: int): Row -> bool {
    (r: Row) => r.pa == pa && r.pp == pp
  }

  /** "D <= date('now','-30 seconds')": a date-and-time text against a date text, so a row is old when
      its day is before the day of thirty seconds ago (OldIsTheStatement). */
  function Old(now: int): Row -> bool {
    (r: Row) => r.d / DAY < (now - 30) / DAY
  }

  function InSet(gone: set<int>): Row -> bool {
    (r: Row) => r.k in gone
  }

  /** store_peer: an INSERT, and when K is already there an UPDATE of D. */
  function Upsert(db: Db, e: Entry, now: int): Db {
    if HasK(db.rows, e.k) then
      db.(rows := Touch(db.rows, WithK(e.k), now))
    else
      Db(db.rows + [RowOf(e, db.nextId, LastRef(db.rows, e.name) + 1, now)], db.nextId + 1)
  }

  /** update_peer */
  function Refresh(db: Db, pa: int, pp: int, now: int): Db {
    db.(rows := Touch(db.rows, WithAddress(pa, pp), now))
  }

  /** del_oldies */
  function Expire(db: Db, now: int): Db {
    db.(rows := Delete(db.rows, Old(now)))
  }

  /** remove_peer, whose condition the program builds from the wrong text: whatever K it names. */
  function Remove(db: Db, gone: set<int>): Db {
    db.(rows := Delete(db.rows, InSet(gone)))
  }

  // ---------- the invariant

  /** Of two rows in rowid order: Ids rise, K differs, and R rises within a group name. */
  predicate Before(x: Row, y: Row) {
    x.id < y.id && x.k != y.k && (x.name == y.name ==> x.r < y.r)
  }

  predicate Sorted(rows: seq<Row>) {
    forall i, j :: 0 <= i < j < |rows| ==> Before(rows[i], rows[j])
  }

  /** R counts the registrations under one name, so it never exceeds Id. */
  predicate TableInv(db: Db) {
    && Sorted(db.rows)
    && 0 < db.nextId
    && forall r :: r in db.rows ==> 1 <= r.r <= r.id < db.nextId
  }

  lemma ColumnIntSmall(v: int)
    requires 0 <= v < 0x8000_0000
    ensures ColumnInt(v) == v
  {
  }

  lemma {:induction false} LastRefBounds(rows: seq<Row>, name: seq<u8>, bound: int)
    requires Sorted(rows) && 0 < bound <= 0x8000_0000 && forall i :: 0 <= i < |rows| ==> 0 <= rows[i].r < bound
    ensures 0 <= LastRef(rows, name) < bound
    ensures forall i :: 0 <= i < |rows| && rows[i].name == name ==> rows[i].r <= LastRef(rows, name)
  {
    hide ColumnInt;
    if rows != [] {
      var n := |rows| - 1;
      ColumnIntSmall(rows[n].r);
      if rows[n].name == name {
        assert forall i :: 0 <= i < n ==> Before(rows[i], rows[n]);
      } else {
        LastRefBounds(rows[..n], name, bound);
        assert forall i :: 0 <= i < n ==> rows[i] == rows[..n][i];
      }
    }
  }

  /** Registrations keep the invariant, as long as R fits the program's int. */
  lemma UpsertKeeps(db: Db, e: Entry, now: int)
    requires TableInv(db) && db.nextId < 0x8000_0000
    ensures TableInv(Upsert(db, e, now))
  {
    if HasK(db.rows, e.k) {
      TouchKeeps(db, WithK(e.k), now);
    } else {
      assert forall i :: 0 <= i < |db.rows| ==> db.rows[i] in db.rows;
      LastRefBounds(db.rows, e.name, db.nextId);
      var x := RowOf(e, db.nextId, LastRef(db.rows, e.name) + 1, now);
      forall i | 0 <= i < |db.rows|
        ensures Before(db.rows[i], x)
      {
        assert db.rows[i] in db.rows;
      }
    }
  }

  lemma TouchKeeps(db: Db, which: Row -> bool, now: int)
    requires TableInv(db)
    ensures TableInv(db.(rows := Touch(db.rows, which, now)))
  {
    var rows := Touch(db.rows, which, now);
    forall r | r in rows
      ensures 1 <= r.r <= r.id < db.nextId
    {
      var i :| 0 <= i < |rows| && rows[i] == r;
      assert db.rows[i] in db.rows;
    }
  }

  lemma {:induction false} DeleteMembers(rows: seq<Row>, which: Row -> bool)
    ensures forall r :: r in Delete(rows, which) <==> r in rows && !which(r)
  {
    if rows != [] {
      DeleteMembers(rows[1..], which);
    }
  }

  lemma {:induction false} DeleteSorted(rows: seq<Row>, which: Row -> bool)
    requires Sorted(rows)
    ensures Sorted(Delete(rows, which))
  {
    if rows != [] {
      DeleteSorted(rows[1..], which);
      DeleteMembers(rows[1..], which);
      var rest := Delete(rows[1..], which);
      forall i | 0 <= i < |rest|
        ensures Before(rows[0], rest[i])
      {
        assert rest[i] in rest;
      }
    }
  }

  lemma DeleteKeeps(db: Db, which: Row -> bool)
    requires TableInv(db)
    ensures TableInv(db.(rows := Delete(db.rows, which)))
  {
    DeleteSorted(db.rows, which);
    DeleteMembers(db.rows, which);
  }

  datatype Op =
    | OpStore(e: Entry, now: int)
    | OpRefresh(pa: int, pp: int, now: int)
    | OpExpire(now: int)
    | OpRemove(gone: set<int>)

  function ApplyOp(db: Db, op: Op): Db {
    match op
    case OpStore(e, now) => Upsert(db, e, now)
    case OpRefresh(pa, pp, now) => Refresh(db, pa, pp, now)
    case OpExpire(now) => Expire(db, now)
    case OpRemove(gone) => Remove(db, gone)
  }

  function TableRun(db: Db, ops: seq<Op>): Db {
    if ops == [] then db else ApplyOp(TableRun(db, ops[..|ops| - 1]), ops[|ops| - 1])
  }

  const EMPTY: Db := Db([], 1)

  /** Over any interleaving of store, refresh, expire and remove there is at most one row per K, and
      R rises in rowid order within each group name. */
  lemma {:induction false} EveryTable(ops: seq<Op>)
    requires |ops| < 0x7FFF_FFFF
    ensures TableInv(TableRun(EMPTY, ops)) && TableRun(EMPTY, ops).nextId <= |ops| + 1
  {
    if ops != [] {
      var before := ops[..|ops| - 1];
      EveryTable(before);
      var db := TableRun(EMPTY, before);
      match ops[|ops| - 1]
      case OpStore(e, now) => UpsertKeeps(db, e, now);
      case OpRefresh(pa, pp, now) => TouchKeeps(db, WithAddress(pa, pp), now);
      case OpExpire(now) => DeleteKeeps(db, Old(now));
      case OpRemove(gone) => DeleteKeeps(db, InSet(gone));
    }
  }

  lemma {:induction false} LastRefIsThere(rows: seq<Row>, name: seq<u8>)
    requires forall i :: 0 <= i < |rows| ==> 0 <= rows[i].r < 0x8000_0000
    ensures LastRef(rows, name) == 0 || exists i :: 0 <= i < |rows| && rows[i].name == name && rows[i].r == LastRef(rows, name)
    ensures (forall i :: 0 <= i < |rows| ==> rows[i].name != name) ==> LastRef(rows, name) == 0
    ensures Sorted(rows) ==> forall i :: 0 <= i < |rows| && rows[i].name == name ==> rows[i].r <= LastRef(rows, name)
  {
    hide ColumnInt;
    if rows != [] {
      var n := |rows| - 1;
      ColumnIntSmall(rows[n].r);
      LastRefIsThere(rows[..n], name);
      assert forall i :: 0 <= i < n ==> rows[i] == rows[..n][i];
      if rows[n].name == name && Sorted(rows) {
        assert forall i :: 0 <= i < n ==> Before(rows[i], rows[n]);
      }
    }
  }

  /** What a new registration appends: its fields under the next Id, as of now, with R one above the
      highest R of its group, and 1 in a group of its own. */
  lemma NewRow(db: Db, e: Entry, now: int)
    requires TableInv(db) && db.nextId < 0x8000_0000 && !HasK(db.rows, e.k)
    ensures var x := Upsert(db, e, now).rows[|db.rows|];
            && Upsert(db, e, now).rows[..|db.rows|] == db.rows && Upsert(db, e, now).nextId == db.nextId + 1
            && x.id == db.nextId && x.d == now && x.name == e.name && x.k == e.k && x.pa == e.a && x.pp == e.p
            && x.t == (if e.typ then 1 else 0) && Key(x.mk0, x.mk1, x.mk2, x.mk3) == e.keys
            && (forall y :: y in db.rows && y.name == e.name ==> y.r < x.r)
            && (x.r == 1 || exists y :: y in db.rows && y.name == e.name && y.r == x.r - 1)
  {
    assert forall i :: 0 <= i < |db.rows| ==> db.rows[i] in db.rows;
    LastRefIsThere(db.rows, e.name);
  }

  /** A repeated registration changes only D, and only of its own row; a new one adds one row at the
      end and changes none. */
  lemma UpsertChanges(db: Db, e: Entry, now: int)
    requires TableInv(db)
    ensures HasK(db.rows, e.k) ==>
              exists i :: 0 <= i < |db.rows| && db.rows[i].k == e.k
                          && Upsert(db, e, now) == db.(rows := db.rows[i := db.rows[i].(d := now)])
    ensures !HasK(db.rows, e.k) ==> db.rows < Upsert(db, e, now).rows && |Upsert(db, e, now).rows| == |db.rows| + 1
    ensures exists r :: r in Upsert(db, e, now).rows && r.k == e.k && r.d == now
  {
    var rows := Upsert(db, e, now).rows;
    if HasK(db.rows, e.k) {
      var r :| r in db.rows && r.k == e.k;
      var i :| 0 <= i < |db.rows| && db.rows[i] == r;
      forall j | 0 <= j < |db.rows| && j != i
        ensures db.rows[j].k != e.k
      {
        assert Before(db.rows[i], db.rows[j]) || Before(db.rows[j], db.rows[i]);
      }
      assert rows == db.rows[i := db.rows[i].(d := now)];
      assert rows[i] in rows;
    } else {
      assert rows[|db.rows|] in rows;
    }
  }

  /** Expiry removes exactly the rows whose day is over; a row refreshed within the last thirty
      seconds stays. */
  lemma ExpireExactly(db: Db, now: int, r: Row)
    ensures r in Expire(db, now).rows <==> r in db.rows && (now - 30) / DAY <= r.d / DAY
    ensures r in db.rows && now - 30 <= r.d ==> r in Expire(db, now).rows
  {
    DeleteMembers(db.rows, Old(now));
    if now - 30 <= r.d {
      DayMonotone(now - 30, r.d);
    }
  }

  /** A row that is refreshed by its address outlives every expiry of the next thirty seconds, with D
      moved and nothing else; rows of other addresses are as they were. */
  lemma RefreshedStay(db: Db, pa: int, pp: int, now: int, later: int, i: nat)
    requires i < |db.rows| && later - 30 <= now
    ensures var mine, rows := db.rows[i].pa == pa && db.rows[i].pp == pp, Refresh(db, pa, pp, now).rows;
            && |rows| == |db.rows|
            && (mine ==> rows[i] == db.rows[i].(d := now) && rows[i] in Expire(Refresh(db, pa, pp, now), later).rows)
            && (!mine ==> rows[i] == db.rows[i])
  {
    var t := Refresh(db, pa, pp, now);
    assert t.rows[i] in t.rows;
    ExpireExactly(t, later, t.rows[i]);
  }

  lemma DayMonotone(x: int, y: int)
    requires x <= y
    ensures x / DAY <= y / DAY
  {
  }

  /** The condition of the statement, on the texts that the columns and `date` hold. */
  predicate StatementHolds(r: Row, now: int)
    requires InCalendar(r.d) && InCalendar(now - 30)
  {
    TextLeq(Stamp(r.d), DayStamp(now - 30))
  }

  /** A row is old exactly when the statement says so. */
  lemma OldIsTheStatement(r: Row, now: int)
    requires InCalendar(r.d) && InCalendar(now - 30)
    ensures Old(now)(r) <==> StatementHolds(r, now)
  {
    hide TextLeq, Stamp, DayStamp;
    StampOrder(r.d, now - 30);
  }

  // ---------- the keys

  datatype MidRow = MidRow(mid: Mid, ip: int)

  /** "WHERE ip=ip4 OR ip='0'" */
  predicate Eligible(m: MidRow, ip4: u32) {
    m.ip == ip4 || m.ip == 0
  }

  /** The request deciphers, under the keys of the row, to a record that names the row. */
  predicate Authenticates(m: MidRow, ip4: u32, request: Record) {
    Eligible(m, ip4) && MeiotIs(Open(ToKeys(m.mid), request), m.mid)
  }

  /** The first row that authenticates a request, as an index; |mids| when there is none. */
  function FirstAuth(mids: seq<MidRow>, ip4: u32, request: Record): (i: nat)
    ensures i <= |mids|
  {
    if mids == [] || Authenticates(mids[0], ip4, request) then 0 else 1 + FirstAuth(mids[1..], ip4, request)
  }

  lemma {:induction false} FirstAuthIs(mids: seq<MidRow>, ip4: u32, request: Record, i: nat)
    requires i <= |mids|
    requires i < |mids| ==> Authenticates(mids[i], ip4, request)
    requires forall j :: 0 <= j < i ==> !Authenticates(mids[j], ip4, request)
    ensures FirstAuth(mids, ip4, request) == i
  {
    hide Authenticates;
    if i != 0 {
      FirstAuthIs(mids[1..], ip4, request, i - 1);
    }
  }

  /** It does authenticate, and no earlier row does. */
  lemma {:induction false} FirstAuthFirst(mids: seq<MidRow>, ip4: u32, request: Record)
    ensures var i := FirstAuth(mids, ip4, request);
            && (i < |mids| ==> Authenticates(mids[i], ip4, request))
            && forall j :: 0 <= j < i ==> !Authenticates(mids[j], ip4, request)
  {
    hide Authenticates;
    if mids != [] && !Authenticates(mids[0], ip4, request) {
      FirstAuthFirst(mids[1..], ip4, request);
      forall j | 0 <= j < FirstAuth(mids, ip4, request)
        ensures !Authenticates(mids[j], ip4, request)
      {
        if j > 0 {
          assert mids[j] == mids[1..][j - 1];
        }
      }
    }
  }

  /** Completeness: a request enciphered under the keys of a row for its address, or for all addresses,
      that it names, is accepted, by that row or by an earlier one that also authenticates it. */
  lemma AuthComplete(mids: seq<MidRow>, ip4: u32, clear: Record, i: nat)
    requires i < |mids| && (mids[i].ip == ip4 || mids[i].ip == 0) && MeiotIs(clear, mids[i].mid)
    ensures FirstAuth(mids, ip4, Seal(ToKeys(mids[i].mid), clear)) <= i
  {
    hide Seal, Open, ToKeys, MeiotIs;
    OpenSeal(ToKeys(mids[i].mid), clear);
    FirstAuthFirst(mids, ip4, Seal(ToKeys(mids[i].mid), clear));
    assert Authenticates(mids[i], ip4, Seal(ToKeys(mids[i].mid), clear));
  }

  /** Soundness: the row that accepts a request is for its address or for all addresses, and the request
      deciphers under its keys to a record that names it. */
  lemma AuthSound(mids: seq<MidRow>, ip4: u32, request: Record)
    requires FirstAuth(mids, ip4, request) < |mids|
    ensures var m := mids[FirstAuth(mids, ip4, request)];
            (m.ip == ip4 || m.ip == 0) && MeiotIs(Open(ToKeys(m.mid), request), m.mid)
  {
    hide Open, ToKeys, MeiotIs;
    FirstAuthFirst(mids, ip4, request);
  }

  /** A table whose rows are all for other addresses accepts nothing. */
  lemma StrangersRefused(mids: seq<MidRow>, ip4: u32, request: Record)
    requires forall i :: 0 <= i < |mids| ==> mids[i].ip != ip4 && mids[i].ip != 0
    ensures FirstAuth(mids, ip4, request) == |mids|
  {
    hide Open, ToKeys, MeiotIs;
    FirstAuthFirst(mids, ip4, request);
  }

  lemma AuthAnswers(mids: seq<MidRow>, ip4: u32, pl: Record)
    ensures FirstAuth(mids, ip4, pl) < |mids|
            <==> exists i :: 0 <= i < |mids| && (mids[i].ip == ip4 || mids[i].ip == 0)
                             && MeiotIs(Open(ToKeys(mids[i].mid), pl), mids[i].mid)
    ensures forall i, c: Record :: 0 <= i < |mids| && (mids[i].ip == ip4 || mids[i].ip == 0)
                                   && MeiotIs(c, mids[i].mid) && pl == Seal(ToKeys(mids[i].mid), c)
                                   ==> FirstAuth(mids, ip4, pl) < |mids|
  {
    hide Open, ToKeys, MeiotIs, Seal;
    FirstAuthFirst(mids, ip4, pl);
    if FirstAuth(mids, ip4, pl) < |mids| {
      AuthSound(mids, ip4, pl);
    }
    forall i, c: Record | 0 <= i < |mids| && (mids[i].ip == ip4 || mids[i].ip == 0)
                          && MeiotIs(c, mids[i].mid) && pl == Seal(ToKeys(mids[i].mid), c)
      ensures FirstAuth(mids, ip4, pl) < |mids|
    {
      AuthComplete(mids, ip4, c, i);
    }
    if i :| 0 <= i < |mids| && (mids[i].ip == ip4 || mids[i].ip == 0) && MeiotIs(Open(ToKeys(mids[i].mid), pl), mids[i].mid) {
      assert Authenticates(mids[i], ip4, pl);
    }
  }

  class Sqlyte {
    var pers: seq<Row>
    var mids: seq<MidRow>
    var nextId: nat

    ghost function Contents(): Db
      reads this
    {
      Db(pers, nextId)
    }

    constructor (mids: seq<MidRow>)
      ensures Contents() == EMPTY && this.mids == mids
    {
      this.pers, this.mids, this.nextId := [], mids, 1;
    }

    /** store_peer: the SELECT loop keeps the last R, the INSERT fails on a K that is there, and then
        the UPDATE runs. When the database does not answer (`up` is false) nothing is stored. */
    method StorePeer(e: Entry, now: int, up: bool) returns (dirty: bool)
      modifies this
      ensures dirty == up && mids == old(mids)
      ensures Contents() == if up then Upsert(old(Contents()), e, now) else old(Contents())
    {
      if !up {
        return false;
      }
      var refs := 0;
      for i := 0 to |pers|
        invariant refs == LastRef(pers[..i], e.name)
        invariant Contents() == old(Contents()) && mids == old(mids)
      {
        assert pers[..i + 1][..i] == pers[..i];
        if pers[i].name == e.name {
          refs := ColumnInt(pers[i].r);
        }
      }
      assert pers[..|pers|] == pers;
      refs := refs + 1;
      if HasK(pers, e.k) {
        pers := Touch(pers, WithK(e.k), now);
      } else {
        pers := pers + [RowOf(e, nextId, refs, now)];
        nextId := nextId + 1;
      }
      dirty := true;
    }

    method GetPers() returns (out: seq<Ipp>)
      ensures out == Pers(pers)
    {
      out := [];
      for i := 0 to |pers|
        invariant out == Pers(pers[..i])
      {
        out := out + [RowIpp(pers[i])];
      }
    }

    /** authorize: it accepts exactly when some row for the address or for all addresses has keys under
        which the request names that row; so always when the request was made under the keys of such a
        row. On success the clear record and the keys are those of the first authenticating row, the
        record names that row, and enciphering it again gives the request back. */
    method Authorize(pl: Record, ip4: u32) returns (ok: bool, clear: Record, keys: Key)
      ensures ok <==> exists i :: 0 <= i < |mids| && (mids[i].ip == ip4 || mids[i].ip == 0)
                                  && MeiotIs(Open(ToKeys(mids[i].mid), pl), mids[i].mid)
      ensures (exists i, c: Record :: 0 <= i < |mids| && (mids[i].ip == ip4 || mids[i].ip == 0)
                                      && MeiotIs(c, mids[i].mid) && pl == Seal(ToKeys(mids[i].mid), c))
              ==> ok
      ensures ok <==> FirstAuth(mids, ip4, pl) < |mids|
      ensures ok ==> var i := FirstAuth(mids, ip4, pl);
                     && i < |mids| && (mids[i].ip == ip4 || mids[i].ip == 0)
                     && keys == ToKeys(mids[i].mid) && MeiotIs(clear, mids[i].mid)
      ensures ok ==> clear == Open(keys, pl) && Seal(keys, clear) == pl
    {
      hide Open, ToKeys, MeiotIs, Seal;
      AuthAnswers(mids, ip4, pl);
      clear, keys := ZeroRecord(), Key(0, 0, 0, 0);
      for i := 0 to |mids|
        invariant forall j :: 0 <= j < i ==> !Authenticates(mids[j], ip4, pl)
      {
        if Eligible(mids[i], ip4) {
          keys := ToKeys(mids[i].mid);
          clear := Open(keys, pl);
          if MeiotIs(clear, mids[i].mid) {
            OpenSeal(keys, pl);
            assert Authenticates(mids[i], ip4, pl);
            FirstAuthIs(mids, ip4, pl, i);
            return true, clear, keys;
          }
        }
      }
      FirstAuthIs(mids, ip4, pl, |mids|);
      ok := false;
    }

    /** del_oldies: the rows that are left are exactly those for which the condition of the statement, a
        comparison of texts, does not hold; none that was refreshed in the last thirty seconds goes. */
    method DelOldies(now: int) returns (done: bool)
      modifies this
      ensures done && Contents() == Expire(old(Contents()), now) && mids == old(mids)
      ensures forall r :: r in pers <==> r in old(pers) && (now - 30) / DAY <= r.d / DAY
      ensures InCalendar(now - 30) ==>
                forall r: Row :: InCalendar(r.d) ==> (r in pers <==> r in old(pers) && !StatementHolds(r, now))
      ensures forall r :: r in old(pers) && now - 30 <= r.d ==> r in pers
    {
      hide InCalendar, StatementHolds;
      ghost var was := Contents();
      pers := Delete(pers, Old(now));
      done := true;
      forall r: Row
        ensures r in pers <==> r in was.rows && (now - 30) / DAY <= r.d / DAY
        ensures r in was.rows && now - 30 <= r.d ==> r in pers
        ensures InCalendar(now - 30) && InCalendar(r.d) ==> (r in pers <==> r in was.rows && !StatementHolds(r, now))
      {
        ExpireExactly(was, now, r);
        if InCalendar(now - 30) && InCalendar(r.d) {
          OldIsTheStatement(r, now);
        }
      }
    }

    method RemovePeer(gone: set<int>) returns (done: bool)
      modifies this
      ensures done && Contents() == Remove(old(Contents()), gone) && mids == old(mids)
    {
      pers := Delete(pers, InSet(gone));
      done := true;
    }

    /** update_peer: the rows of this address and port get a new D and nothing else; all others stay, and
        so does their order. No expiry of the next thirty seconds takes a refreshed row. */
    method UpdatePeer(ip: u32, port: u16, now: int)
      modifies this
      ensures Contents() == Refresh(old(Contents()), ip, port, now) && mids == old(mids)
      ensures |pers| == |old(pers)|
      ensures forall i :: 0 <= i < |pers| ==>
                pers[i] == if old(pers)[i].pa == ip
                    && old(pers)[i].pp == port then old(pers)[i].(d := now) else old(pers)[i]
      ensures forall i, later :: 0 <= i < |pers| && pers[i].pa == ip && pers[i].pp == port && later - 30 <= now ==>
                pers[i] in Expire(Contents(), later).rows
    {
      ghost var was := Contents();
      pers := Touch(pers, WithAddress(ip, port), now);
      forall i, later | 0 <= i < |pers| && pers[i].pa == ip && pers[i].pp == port && later - 30 <= now
        ensures pers[i] in Expire(Contents(), later).rows
      {
        RefreshedStay(was, ip, port, now, later, i);
      }
    }
  }

}
