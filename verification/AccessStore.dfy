/** The management store as one process sees it: tables it writes, the snapshot it reads, and the reload in between. */
module AccessStore {
  import opened Options
  import opened AccessSnapshot

  datatype Result<T> = Loaded(rows: set<T>) | Failed

  /** The four lists, in the database or in memory. */
  datatype Lists = Lists(bannedPubkeys: set<string>, bannedEvents: set<string>, exemptPubkeys: set<string>,
                         allowedKinds: set<int>)

  const EMPTY_ACCESS := Lists({}, {}, {}, {})

  /** A query that goes wrong, and after how many rows it does. */
  datatype Fault = Fault(table: Table, row: nat)

  function SizeOf(l: Lists, t: Table): nat {
    match t
    case BannedPubkeys => |l.bannedPubkeys|
    case BannedEvents => |l.bannedEvents|
    case ExemptPubkeys => |l.exemptPubkeys|
    case AllowedKinds => |l.allowedKinds|
  }

  /** Where a reload stops: a fault counts when the rows before it exist. */
  function FailsAt(l: Lists, fault: Option<Fault>): Option<Table> {
    if fault.Some? && fault.value.row <= SizeOf(l, fault.value.table) then Some(fault.value.table) else None
  }

  /** Reads the rows of one query, in whatever order they come, until they end or one of them fails. */
  method LoadSet<T(==)>(rows: set<T>, faultRow: Option<nat>) returns (r: Result<T>)
    ensures r.Failed? <==> faultRow.Some? && faultRow.value <= |rows|
    ensures r.Loaded? ==> r.rows == rows
  {
    var todo, loaded := rows, {};
    var count := 0;
    while todo != {}
      invariant todo !! loaded && todo + loaded == rows && |loaded| == count && |todo| + count == |rows|
      invariant faultRow.Some? ==> count <= faultRow.value
      decreases todo
    {
      if faultRow == Some(count) {
        return Failed;
      }
      var v :| v in todo;
      loaded, todo := loaded + {v}, todo - {v};
      count := count + 1;
    }
    if faultRow == Some(count) {
      return Failed;
    }
    return Loaded(loaded);
  }

  class Store {
    var db: Lists
    var accessSnap: Option<Lists>

    constructor ()
      ensures db == EMPTY_ACCESS && accessSnap.None?
    {
      db, accessSnap := EMPTY_ACCESS, None;
    }

    function Access(): Lists
      reads this
    {
      if accessSnap.Some? then accessSnap.value else EMPTY_ACCESS
    }

    /** All four lists or none: the first query that fails leaves the published lists as they were. */
    method RefreshAccess(fault: Option<Fault>) returns (failed: Option<Table>)
      modifies this`accessSnap
      ensures failed == FailsAt(db, fault)
      ensures fault.None? ==> failed.None?
      ensures fault.Some? ==> (failed == Some(fault.value.table) <==> fault.value.row <= SizeOf(db, fault.value.table))
      ensures failed.Some? ==> fault.Some? && failed.value == fault.value.table
      ensures accessSnap == if failed.Some? then old(accessSnap) else Some(db)
    {
      var pubkeys := LoadSet(db.bannedPubkeys, RowOf(fault, BannedPubkeys));
      if pubkeys.Failed? {
        return Some(BannedPubkeys);
      }
      var events := LoadSet(db.bannedEvents, RowOf(fault, BannedEvents));
      if events.Failed? {
        return Some(BannedEvents);
      }
      var exempt := LoadSet(db.exemptPubkeys, RowOf(fault, ExemptPubkeys));
      if exempt.Failed? {
        return Some(ExemptPubkeys);
      }
      var kinds := LoadSet(db.allowedKinds, RowOf(fault, AllowedKinds));
      if kinds.Failed? {
        return Some(AllowedKinds);
      }
      accessSnap := Some(Lists(pubkeys.rows, events.rows, exempt.rows, kinds.rows));
      return None;
    }

    /** A write that failed reloads nothing; a reload that failed does not make the write fail. */
    method AfterWrite(written: bool, fault: Option<Fault>) returns (ok: bool)
      modifies this`accessSnap
      ensures ok == written
      ensures accessSnap == if written && FailsAt(db, fault).None? then Some(db) else old(accessSnap)
    {
      if !written {
        return false;
      }
      var _ := RefreshAccess(fault);
      return true;
    }

    method BanPubkey(pubkey: string, written: bool, fault: Option<Fault>) returns (ok: bool)
      modifies this
      ensures ok == written
      ensures db == if ok then old(db).(bannedPubkeys := old(db).bannedPubkeys + {pubkey}) else old(db)
      ensures accessSnap == if ok && FailsAt(db, fault).None? then Some(db) else old(accessSnap)
      ensures ok && FailsAt(db, fault).None? ==> pubkey in Access().bannedPubkeys
    {
      if written {
        db := db.(bannedPubkeys := db.bannedPubkeys + {pubkey});
      }
      ok := AfterWrite(written, fault);
    }

    method UnbanPubkey(pubkey: string, written: bool, fault: Option<Fault>) returns (ok: bool)
      modifies this
      ensures ok == written
      ensures db == if ok then old(db).(bannedPubkeys := old(db).bannedPubkeys - {pubkey}) else old(db)
      ensures accessSnap == if ok && FailsAt(db, fault).None? then Some(db) else old(accessSnap)
      ensures ok && FailsAt(db, fault).None? ==> pubkey !in Access().bannedPubkeys
    {
      if written {
        db := db.(bannedPubkeys := db.bannedPubkeys - {pubkey});
      }
      ok := AfterWrite(written, fault);
    }

    method AllowKind(kind: int, written: bool, fault: Option<Fault>) returns (ok: bool)
      modifies this
      ensures ok == written
      ensures db == if ok then old(db).(allowedKinds := old(db).allowedKinds + {kind}) else old(db)
      ensures accessSnap == if ok && FailsAt(db, fault).None? then Some(db) else old(accessSnap)
    {
      if written {
        db := db.(allowedKinds := db.allowedKinds + {kind});
      }
      ok := AfterWrite(written, fault);
    }

    method DisallowKind(kind: int, written: bool, fault: Option<Fault>) returns (ok: bool)
      modifies this
      ensures ok == written
      ensures db == if ok then old(db).(allowedKinds := old(db).allowedKinds - {kind}) else old(db)
      ensures accessSnap == if ok && FailsAt(db, fault).None? then Some(db) else old(accessSnap)
      ensures ok && FailsAt(db, fault).None? ==>
                accessSnap.Some?
                && (accessSnap.value.allowedKinds == {} || kind in accessSnap.value.allowedKinds
                    <==> old(db).allowedKinds <= {kind})
    {
      if written {
        db := db.(allowedKinds := db.allowedKinds - {kind});
      }
      ok := AfterWrite(written, fault);
    }

    method IsPubkeyBanned(pubkey: string) returns (banned: bool)
      ensures banned <==> accessSnap.Some? && pubkey in accessSnap.value.bannedPubkeys
    {
      banned := pubkey in Access().bannedPubkeys;
    }

    method IsKindAllowed(kind: int) returns (allowed: bool)
      ensures allowed
              <==> accessSnap.None? || accessSnap.value.allowedKinds == {} || kind in accessSnap.value.allowedKinds
    {
      var kinds := Access().allowedKinds;
      if |kinds| == 0 {
        return true;
      }
      return kind in kinds;
    }
  }

  function RowOf(fault: Option<Fault>, t: Table): Option<nat> {
    if fault.Some? && fault.value.table == t then Some(fault.value.row) else None
  }
}
