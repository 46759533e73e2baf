/** The JSON file driver: read-modify-write under a lock file, for any number of concurrent operations. */
module JsonDriver {
  import opened Text

  /** A stored object of the users, transactions or admins file: its fields by name. */
  type Record = map<string, string>

  datatype Balance = Balance(userId: string, amount: int, currency: string, updatedAt: int)
  datatype Setting = Setting(key: string, value: string, updatedAt: int)

  datatype Collection = Users | Transactions | Balances | Settings | Admins

  /** The contents of one collection's file. */
  datatype File =
    | RecordFile(records: seq<Record>)
    | BalanceFile(balances: seq<Balance>)
    | SettingFile(settings: seq<Setting>)

  datatype Db = Db(users: seq<Record>, transactions: seq<Record>, balances: seq<Balance>, settings: seq<Setting>,
                   admins: seq<Record>)

  /** The writing operations, with the id and the time they will use. */
  datatype Op =
    | CreateUser(id: string, data: Record, now: string)
    | UpdateUser(id: string, data: Record, now: string)
    | CreateTransaction(id: string, data: Record, now: string)
    | UpdateTransaction(id: string, data: Record, now: string)
    | CreateAdmin(id: string, data: Record, now: string)
    | UpsertBalance(balance: Balance)
    | SetSetting(setting: Setting)

  datatype Result = Done | NotFound | LockTimeout

  const MAX_ATTEMPTS: nat := 50

  // ----- what one operation does to one file -----

  function CollectionOf(op: Op): Collection {
    match op
    case CreateUser(_, _, _) => Users
    case UpdateUser(_, _, _) => Users
    case CreateTransaction(_, _, _) => Transactions
    case UpdateTransaction(_, _, _) => Transactions
    case CreateAdmin(_, _, _) => Admins
    case UpsertBalance(_) => Balances
    case SetSetting(_) => Settings
  }

  function FileOf(db: Db, c: Collection): File {
    match c
    case Users => RecordFile(db.users)
    case Transactions => RecordFile(db.transactions)
    case Balances => BalanceFile(db.balances)
    case Settings => SettingFile(db.settings)
    case Admins => RecordFile(db.admins)
  }

  /** What `readCollection` answers when reading or parsing fails. */
  function EmptyFile(c: Collection): File {
    match c
    case Balances => BalanceFile([])
    case Settings => SettingFile([])
    case _ => RecordFile([])
  }

  predicate Fits(f: File, c: Collection) {
    match c
    case Balances => f.BalanceFile?
    case Settings => f.SettingFile?
    case _ => f.RecordFile?
  }

  function WithFile(db: Db, c: Collection, f: File): Db
    requires Fits(f, c)
  {
    match c
    case Users => db.(users := f.records)
    case Transactions => db.(transactions := f.records)
    case Balances => db.(balances := f.balances)
    case Settings => db.(settings := f.settings)
    case Admins => db.(admins := f.records)
  }

  function Created(id: string, data: Record, now: string, stamps: set<string>): Record {
    map["id" := id] + data + (map k | k in stamps :: now)
  }

  predicate HasId(r: Record, id: string) {
    "id" in r && r["id"] == id
  }

  /** `{ ...record, ...data, id, updatedAt }`. */
  function Overwritten(r: Record, id: string, data: Record, now: string): Record {
    r + data + map["id" := id, "updatedAt" := now]
  }

  /** Field by field: the id and the time are the given ones, the given data win over the stored fields, and there is no
      other field. */
  ghost predicate IsUpdateOf(u: Record, r: Record, id: string, data: Record, now: string) {
    && (forall f :: f in u <==> f in r || f in data || f == "id" || f == "updatedAt")
    && u["id"] == id && u["updatedAt"] == now
    && (forall f :: f in data && f != "id" && f != "updatedAt" ==> u[f] == data[f])
    && (forall f :: f in r && f !in data && f != "id" && f != "updatedAt" ==> u[f] == r[f])
  }

  lemma OverwrittenIsUpdate(r: Record, id: string, data: Record, now: string)
    ensures IsUpdateOf(Overwritten(r, id, data, now), r, id, data, now)
  {
  }

  /** A new record: the generated id unless the data give one, the data, and the stamps, which win. */
  ghost predicate IsCreationOf(u: Record, id: string, data: Record, now: string, stamps: set<string>) {
    && (forall f :: f in u <==> f == "id" || f in data || f in stamps)
    && (forall f :: f in stamps ==> u[f] == now)
    && (forall f :: f in data && f !in stamps ==> u[f] == data[f])
    && ("id" !in data && "id" !in stamps ==> u["id"] == id)
  }

  lemma CreatedIsCreation(id: string, data: Record, now: string, stamps: set<string>)
    ensures IsCreationOf(Created(id, data, now, stamps), id, data, now, stamps)
  {
  }

  /** The records with the fields of the first one of that id overwritten; None when there is none. */
  function RecordUpdated(records: seq<Record>, id: string, data: Record, now: string): Option<seq<Record>> {
    if |records| == 0 then None
    else if HasId(records[0], id) then Some([Overwritten(records[0], id, data, now)] + records[1..])
    else
      match RecordUpdated(records[1..], id, data, now)
      case None => None
      case Some(rest) => Some([records[0]] + rest)
  }

  function BalanceUpserted(balances: seq<Balance>, b: Balance): seq<Balance> {
    if |balances| == 0 then [b]
    else if balances[0].userId == b.userId then [b] + balances[1..]
    else [balances[0]] + BalanceUpserted(balances[1..], b)
  }

  function SettingUpserted(settings: seq<Setting>, s: Setting): seq<Setting> {
    if |settings| == 0 then [s]
    else if settings[0].key == s.key then [s] + settings[1..]
    else [settings[0]] + SettingUpserted(settings[1..], s)
  }

  const BOTH_STAMPS: set<string> := {"createdAt", "updatedAt"}

  function AsFile(r: Option<seq<Record>>): Option<File> {
    match r
    case None => None
    case Some(records) => Some(RecordFile(records))
  }

  /** The new contents of the file, or None when the operation throws before it writes. */
  function Computed(op: Op, f: File): (r: Option<File>)
    requires Fits(f, CollectionOf(op))
    ensures r.Some? ==> Fits(r.value, CollectionOf(op))
  {
    match op
    case CreateUser(id, data, now) => Some(RecordFile(f.records + [Created(id, data, now, BOTH_STAMPS)]))
    case CreateTransaction(id, data, now) => Some(RecordFile(f.records + [Created(id, data, now, BOTH_STAMPS)]))
    case CreateAdmin(id, data, now) => Some(RecordFile(f.records + [Created(id, data, now, {"createdAt"})]))
    case UpdateUser(id, data, now) => AsFile(RecordUpdated(f.records, id, data, now))
    case UpdateTransaction(id, data, now) => AsFile(RecordUpdated(f.records, id, data, now))
    case UpsertBalance(b) => Some(BalanceFile(BalanceUpserted(f.balances, b)))
    case SetSetting(s) => Some(SettingFile(SettingUpserted(f.settings, s)))
  }

  /** One operation on the whole database, with a read that succeeds or one that fails. */
  function Applied(db: Db, op: Op, readOk: bool): Db {
    var c := CollectionOf(op);
    match Computed(op, if readOk then FileOf(db, c) else EmptyFile(c))
    case None => db
    case Some(f) => WithFile(db, c, f)
  }

  const NO_RECORDS: Db := Db([], [], [], [], [])

  /** An update of an id that no record has. */
  predicate Misses(op: Op, db: Db) {
    match op
    case UpdateUser(id, _, _) => forall k :: 0 <= k < |db.users| ==> !HasId(db.users[k], id)
    case UpdateTransaction(id, _, _) => forall k :: 0 <= k < |db.transactions| ==> !HasId(db.transactions[k], id)
    case _ => false
  }

  lemma {:induction false} RecordUpdatedMisses(records: seq<Record>, id: string, data: Record, now: string)
    ensures RecordUpdated(records, id, data, now).None? <==> forall k :: 0 <= k < |records| ==> !HasId(records[k], id)
  {
    if |records| > 0 && !HasId(records[0], id) {
      RecordUpdatedMisses(records[1..], id, data, now);
      if forall k :: 0 <= k < |records[1..]| ==> !HasId(records[1..][k], id) {
        forall k | 0 <= k < |records| ensures !HasId(records[k], id) {
          assert k > 0 ==> records[k] == records[1..][k - 1];
        }
      }
    }
  }

  lemma ComputedMisses(op: Op, db: Db)
    ensures Computed(op, FileOf(db, CollectionOf(op))).None? <==> Misses(op, db)
    ensures EmptyFile(CollectionOf(op)) == FileOf(NO_RECORDS, CollectionOf(op))
  {
    match op {
      case UpdateUser(id, data, now) => RecordUpdatedMisses(db.users, id, data, now);
      case UpdateTransaction(id, data, now) => RecordUpdatedMisses(db.transactions, id, data, now);
      case _ =>
    }
  }

  /** What each operation does to the database: it changes the one collection it is about, computed from what it read,
      and an update of an unknown id changes nothing. */
  lemma OperationEffect(db: Db, op: Op, readOk: bool)
    ensures var read, after := if readOk then db else NO_RECORDS, Applied(db, op, readOk);
            match op
            case CreateUser(id, data, now) =>
              after == db.(users := read.users + [Created(id, data, now, {"createdAt", "updatedAt"})])
            case CreateTransaction(id, data, now) =>
              after == db.(transactions := read.transactions + [Created(id, data, now, {"createdAt", "updatedAt"})])
            case CreateAdmin(id, data, now) =>
              after == db.(admins := read.admins + [Created(id, data, now, {"createdAt"})])
            case UpdateUser(id, data, now) =>
              var u := RecordUpdated(read.users, id, data, now);
              after == if u.None? then db else db.(users := u.value)
            case UpdateTransaction(id, data, now) =>
              var u := RecordUpdated(read.transactions, id, data, now);
              after == if u.None? then db else db.(transactions := u.value)
            case UpsertBalance(b) => after == db.(balances := BalanceUpserted(read.balances, b))
            case SetSetting(setting) => after == db.(settings := SettingUpserted(read.settings, setting))
  {
    hide RecordUpdated, BalanceUpserted, SettingUpserted, Created;
  }

  /** Record `k` is the first one with the id. */
  predicate IsFirst(records: seq<Record>, id: string, k: int) {
    0 <= k < |records| && HasId(records[k], id) && forall j :: 0 <= j < k ==> !HasId(records[j], id)
  }

  /** Record `k` is updated and all others are as they were. */
  ghost predicate OneUpdated(records: seq<Record>, after: seq<Record>, k: int, id: string, data: Record, now: string) {
    && |after| == |records| && 0 <= k < |records| && IsUpdateOf(after[k], records[k], id, data, now)
    && forall j :: 0 <= j < |records| && j != k ==> after[j] == records[j]
  }

  /** A record just updated is what the finder by id then finds, and everything else is as it was. */
  lemma UpdateThenFind(records: seq<Record>, id: string, data: Record, now: string, k: int)
    requires IsFirst(records, id, k)
    ensures RecordUpdated(records, id, data, now).Some?
    ensures var after := RecordUpdated(records, id, data, now).value;
            OneUpdated(records, after, k, id, data, now) && IsFirst(after, id, k)
  {
    RecordUpdatedAt(records, id, data, now, k);
    OverwrittenIsUpdate(records[k], id, data, now);
  }

  // ----- the driver -----

  /** The lock file and the data files. */
  datatype Disk = Disk(locked: bool, db: Db)

  /** `acquireLock` from an attempt on: `world` gives the disk after each wait of 100 ms, whatever others did. */
  function AcquireFrom(disk: Disk, world: nat -> Disk, attempt: nat): (Disk, bool)
    decreases MAX_ATTEMPTS - attempt
  {
    if attempt >= MAX_ATTEMPTS then (disk, false)
    else if !disk.locked then (disk.(locked := true), true)
    else AcquireFrom(world(attempt), world, attempt + 1)
  }

  /** The disk at the `k`-th look at the lock file. */
  function Look(disk: Disk, world: nat -> Disk, k: nat): Disk {
    if k == 0 then disk else world(k - 1)
  }

  /** Look `k` is the first one from `attempt` on that finds no lock file. */
  predicate FirstFree(disk: Disk, world: nat -> Disk, attempt: nat, k: nat) {
    && attempt <= k < MAX_ATTEMPTS && !Look(disk, world, k).locked
    && forall j: nat :: attempt <= j < k ==> Look(disk, world, j).locked
  }

  /** What `acquireLock` computes: it succeeds exactly when one of the 50 looks finds no lock file, and then creates the
      file at the first such look; on time-out the disk is as the others left it. */
  lemma {:induction false} AcquiresIffFree(disk: Disk, world: nat -> Disk, attempt: nat)
    requires attempt < MAX_ATTEMPTS
    ensures var (after, acquired) := AcquireFrom(Look(disk, world, attempt), world, attempt);
            if acquired
            then exists k: nat :: FirstFree(disk, world, attempt, k) && after == Look(disk, world, k).(locked := true)
            else (forall k: nat :: attempt <= k < MAX_ATTEMPTS ==> Look(disk, world, k).locked)
                 && after == world(MAX_ATTEMPTS - 1)
    decreases MAX_ATTEMPTS - attempt
  {
    if Look(disk, world, attempt).locked {
      assert Look(disk, world, attempt + 1) == world(attempt);
      if attempt + 1 < MAX_ATTEMPTS {
        AcquiresIffFree(disk, world, attempt + 1);
        var (after, acquired) := AcquireFrom(Look(disk, world, attempt + 1), world, attempt + 1);
        if acquired {
          var k: nat :| FirstFree(disk, world, attempt + 1, k) && after == Look(disk, world, k).(locked := true);
          assert FirstFree(disk, world, attempt, k);
        }
      }
    } else {
      assert FirstFree(disk, world, attempt, attempt);
    }
  }

  class Driver {
    var disk: Disk

    constructor (disk: Disk)
      ensures this.disk == disk
    {
      this.disk := disk;
    }

    method AcquireLock(world: nat -> Disk) returns (acquired: bool)
      modifies this
      ensures (disk, acquired) == AcquireFrom(old(disk), world, 0)
      ensures acquired <==> exists k: nat :: k < 50 && !Look(old(disk), world, k).locked
      ensures acquired ==>
                exists k: nat :: FirstFree(old(disk), world, 0, k) && disk == Look(old(disk), world, k).(locked := true)
      ensures !acquired ==> disk == world(MAX_ATTEMPTS - 1)
    {
      AcquiresIffFree(disk, world, 0);
      var attempts := 0;
      while attempts < MAX_ATTEMPTS
        invariant attempts <= MAX_ATTEMPTS
        invariant AcquireFrom(disk, world, attempts) == AcquireFrom(old(disk), world, 0)
      {
        if !disk.locked {
          disk := disk.(locked := true);
          return true;
        }
        disk := world(attempts);
        attempts := attempts + 1;
      }
      return false;
    }

    method ReleaseLock()
      modifies this
      ensures disk == old(disk).(locked := false)
    {
      if disk.locked {
        disk := disk.(locked := false);
      }
    }

    method ReadCollection(c: Collection, readOk: bool) returns (f: File)
      ensures f == if readOk then FileOf(disk.db, c) else EmptyFile(c)
    {
      return if readOk then FileOf(disk.db, c) else EmptyFile(c);
    }

    method WriteCollection(c: Collection, f: File)
      requires Fits(f, c)
      modifies this
      ensures disk == old(disk).(db := WithFile(old(disk).db, c, f))
    {
      disk := disk.(db := WithFile(disk.db, c, f));
    }

    /** Any writing operation: lock, read, change, write, and release in the `finally` part.  After a time-out
        there is no release. */
    method Perform(op: Op, world: nat -> Disk, readOk: bool) returns (result: Result)
      modifies this
      ensures var (locked, acquired) := AcquireFrom(old(disk), world, 0);
              && (result == LockTimeout <==> !acquired)
              && (!acquired ==> disk == locked)
              && (acquired ==> disk == Disk(false, Applied(locked.db, op, readOk)))
              && (result == NotFound ==> disk.db == locked.db)
              && (result == NotFound <==> acquired && Misses(op, if readOk then locked.db else NO_RECORDS))
    {
      var acquired := AcquireLock(world);
      if !acquired {
        return LockTimeout;
      }
      var c := CollectionOf(op);
      var f := ReadCollection(c, readOk);
      var changed := Change(op, f);
      ComputedMisses(op, if readOk then disk.db else NO_RECORDS);
      if changed.None? {
        ReleaseLock();
        return NotFound;
      }
      WriteCollection(c, changed.value);
      ReleaseLock();
      return Done;
    }

    method Change(op: Op, f: File) returns (changed: Option<File>)
      requires Fits(f, CollectionOf(op))
      ensures changed == Computed(op, f)
    {
      match op {
        case CreateUser(id, data, now) =>
          changed := Some(RecordFile(f.records + [Created(id, data, now, BOTH_STAMPS)]));
        case CreateTransaction(id, data, now) =>
          changed := Some(RecordFile(f.records + [Created(id, data, now, BOTH_STAMPS)]));
        case CreateAdmin(id, data, now) =>
          changed := Some(RecordFile(f.records + [Created(id, data, now, {"createdAt"})]));
        case UpdateUser(id, data, now) =>
          changed := UpdateRecord(f.records, id, data, now);
        case UpdateTransaction(id, data, now) =>
          changed := UpdateRecord(f.records, id, data, now);
        case UpsertBalance(b) =>
          changed := PutBalance(f.balances, b);
        case SetSetting(s) =>
          changed := PutSetting(f.settings, s);
      }
    }

    method UpdateRecord(records: seq<Record>, id: string, data: Record, now: string) returns (changed: Option<File>)
      ensures changed == AsFile(RecordUpdated(records, id, data, now))
      ensures changed.None? <==> forall k :: 0 <= k < |records| ==> !("id" in records[k] && records[k]["id"] == id)
      ensures changed.Some? ==> changed.value.RecordFile?
      ensures changed.Some? ==>
                (exists k :: IsFirst(records, id, k) && OneUpdated(records, changed.value.records, k, id, data, now))
    {
      var index := 0;
      while index < |records| && !HasId(records[index], id)
        invariant 0 <= index <= |records| && forall k :: 0 <= k < index ==> !HasId(records[k], id)
      {
        index := index + 1;
      }
      RecordUpdatedAt(records, id, data, now, index);
      if index == |records| {
        return None;
      }
      OverwrittenIsUpdate(records[index], id, data, now);
      assert IsFirst(records, id, index);
      return Some(RecordFile(records[index := Overwritten(records[index], id, data, now)]));
    }

    method PutBalance(balances: seq<Balance>, b: Balance) returns (changed: Option<File>)
      ensures changed == Some(BalanceFile(BalanceUpserted(balances, b)))
    {
      var index := 0;
      while index < |balances| && balances[index].userId != b.userId
        invariant 0 <= index <= |balances| && forall k :: 0 <= k < index ==> balances[k].userId != b.userId
      {
        index := index + 1;
      }
      BalanceUpsertedAt(balances, b, index);
      return Some(BalanceFile(if index == |balances| then balances + [b] else balances[index := b]));
    }

    method PutSetting(settings: seq<Setting>, s: Setting) returns (changed: Option<File>)
      ensures changed == Some(SettingFile(SettingUpserted(settings, s)))
    {
      var index := 0;
      while index < |settings| && settings[index].key != s.key
        invariant 0 <= index <= |settings| && forall k :: 0 <= k < index ==> settings[k].key != s.key
      {
        index := index + 1;
      }
      SettingUpsertedAt(settings, s, index);
      return Some(SettingFile(if index == |settings| then settings + [s] else settings[index := s]));
    }
  }

  lemma {:induction false} RecordUpdatedAt(records: seq<Record>, id: string, data: Record, now: string, index: nat)
    requires index <= |records| && (index < |records| ==> HasId(records[index], id))
    requires forall k :: 0 <= k < index ==> !HasId(records[k], id)
    ensures RecordUpdated(records, id, data, now)
            == if index == |records| then None
               else Some(records[index := Overwritten(records[index], id, data, now)])
    decreases index
  {
    if index == 0 {
      assert |records| > 0 ==> [Overwritten(records[0], id, data, now)] + records[1..]
                               == records[0 := Overwritten(records[0], id, data, now)];
    } else {
      assert !HasId(records[0], id);
      forall k | 0 <= k < index - 1 ensures !HasId(records[1..][k], id) {
        assert !HasId(records[k + 1], id);
      }
      RecordUpdatedAt(records[1..], id, data, now, index - 1);
      if index < |records| {
        var changed := Overwritten(records[index], id, data, now);
        assert [records[0]] + records[1..][index - 1 := changed] == records[index := changed];
      }
    }
  }

  lemma {:induction false} BalanceUpsertedAt(balances: seq<Balance>, b: Balance, index: nat)
    requires index <= |balances| && (index < |balances| ==> balances[index].userId == b.userId)
    requires forall k :: 0 <= k < index ==> balances[k].userId != b.userId
    ensures BalanceUpserted(balances, b) == if index == |balances| then balances + [b] else balances[index := b]
    decreases index
  {
    if index > 0 {
      var rest := balances[1..];
      assert balances[0].userId != b.userId && balances == [balances[0]] + rest;
      assert forall k :: 0 <= k < index - 1 ==> rest[k] == balances[k + 1];
      BalanceUpsertedAt(rest, b, index - 1);
      assert [balances[0]] + (rest + [b]) == balances + [b];
      assert index < |balances| ==> [balances[0]] + rest[index - 1 := b] == balances[index := b];
    }
  }

  lemma {:induction false} SettingUpsertedAt(settings: seq<Setting>, s: Setting, index: nat)
    requires index <= |settings| && (index < |settings| ==> settings[index].key == s.key)
    requires forall k :: 0 <= k < index ==> settings[k].key != s.key
    ensures SettingUpserted(settings, s) == if index == |settings| then settings + [s] else settings[index := s]
    decreases index
  {
    if index > 0 {
      var rest := settings[1..];
      assert settings[0].key != s.key && settings == [settings[0]] + rest;
      assert forall k :: 0 <= k < index - 1 ==> rest[k] == settings[k + 1];
      SettingUpsertedAt(rest, s, index - 1);
      assert [settings[0]] + (rest + [s]) == settings + [s];
      assert index < |settings| ==> [settings[0]] + rest[index - 1 := s] == settings[index := s];
    }
  }

  // ----- uniqueness -----

  ghost predicate UniqueBalances(balances: seq<Balance>) {
    forall i, j :: 0 <= i < j < |balances| ==> balances[i].userId != balances[j].userId
  }

  ghost predicate UniqueSettings(settings: seq<Setting>) {
    forall i, j :: 0 <= i < j < |settings| ==> settings[i].key != settings[j].key
  }

  ghost predicate Unique(db: Db) {
    UniqueBalances(db.balances) && UniqueSettings(db.settings)
  }

  function BalanceIndex(balances: seq<Balance>, userId: string): (i: nat)
    ensures i <= |balances| && (i < |balances| ==> balances[i].userId == userId)
    ensures forall k :: 0 <= k < i ==> balances[k].userId != userId
  {
    if |balances| == 0 || balances[0].userId == userId then 0 else 1 + BalanceIndex(balances[1..], userId)
  }

  function SettingIndex(settings: seq<Setting>, key: string): (i: nat)
    ensures i <= |settings| && (i < |settings| ==> settings[i].key == key)
    ensures forall k :: 0 <= k < i ==> settings[k].key != key
  {
    if |settings| == 0 || settings[0].key == key then 0 else 1 + SettingIndex(settings[1..], key)
  }

  lemma UpsertsKeepUnique(balances: seq<Balance>, b: Balance, settings: seq<Setting>, s: Setting)
    requires UniqueBalances(balances) && UniqueSettings(settings)
    ensures UniqueBalances(BalanceUpserted(balances, b)) && UniqueSettings(SettingUpserted(settings, s))
  {
    BalanceUpsertedAt(balances, b, BalanceIndex(balances, b.userId));
    SettingUpsertedAt(settings, s, SettingIndex(settings, s.key));
  }

  /** Every operation keeps `balances` unique by user and `settings` unique by key, also after a failed read. */
  lemma AppliedKeepsUnique(db: Db, op: Op, readOk: bool)
    requires Unique(db)
    ensures Unique(Applied(db, op, readOk))
  {
    match op {
      case UpsertBalance(b) =>
        UpsertsKeepUnique(db.balances, b, [], Setting("", "", 0));
        UpsertsKeepUnique([], b, [], Setting("", "", 0));
      case SetSetting(s) =>
        UpsertsKeepUnique([], Balance("", 0, "", 0), db.settings, s);
        UpsertsKeepUnique([], Balance("", 0, "", 0), [], s);
      case _ =>
    }
  }

  /** An upsert changes the user's place, or the end, and nothing else. */
  lemma UpsertedPlaces(balances: seq<Balance>, b: Balance)
    ensures var after, k := BalanceUpserted(balances, b), BalanceIndex(balances, b.userId);
            && |after| == (if k < |balances| then |balances| else |balances| + 1) && after[k] == b
            && forall x :: 0 <= x < |balances| && x != k ==> after[x] == balances[x]
  {
    BalanceUpsertedAt(balances, b, BalanceIndex(balances, b.userId));
  }

  /** What a reader finds after an upsert: the new balance for its user, and every other user's as before. */
  lemma UpsertThenFind(balances: seq<Balance>, b: Balance, userId: string)
    ensures var after, i := BalanceUpserted(balances, b), BalanceIndex(balances, userId);
            var j := BalanceIndex(after, userId);
            if userId == b.userId then j < |after| && after[j] == b
            else if i < |balances| then j < |after| && after[j] == balances[i]
            else j == |after|
  {
    hide BalanceUpserted, BalanceIndex;
    UpsertedPlaces(balances, b);
    var after, k := BalanceUpserted(balances, b), BalanceIndex(balances, b.userId);
    if userId == b.userId {
      assert after[k] == b;
    } else {
      var i := BalanceIndex(balances, userId);
      assert i < |balances| ==> i != k && after[i] == balances[i];
    }
  }

  /** Likewise for settings. */
  lemma SetThenFind(settings: seq<Setting>, s: Setting, key: string)
    ensures var after, i := SettingUpserted(settings, s), SettingIndex(settings, key);
            var j := SettingIndex(after, key);
            if key == s.key then j < |after| && after[j] == s
            else if i < |settings| then j < |after| && after[j] == settings[i]
            else j == |after|
  {
    hide SettingUpserted, SettingIndex;
    SetPlaces(settings, s);
    var after, k := SettingUpserted(settings, s), SettingIndex(settings, s.key);
    if key == s.key {
      assert after[k] == s;
    } else {
      var i := SettingIndex(settings, key);
      assert i < |settings| ==> i != k && after[i] == settings[i];
    }
  }

  lemma SetPlaces(settings: seq<Setting>, s: Setting)
    ensures var after, k := SettingUpserted(settings, s), SettingIndex(settings, s.key);
            && |after| == (if k < |settings| then |settings| else |settings| + 1) && after[k] == s
            && forall x :: 0 <= x < |settings| && x != k ==> after[x] == settings[x]
  {
    SettingUpsertedAt(settings, s, SettingIndex(settings, s.key));
  }

  // ----- concurrent operations -----

  /** Where one call of the driver stands; `HasRead` keeps what it read. */
  datatype Phase =
    | Idle
    | Waiting(op: Op, attempts: nat)
    | Locked(op: Op)
    | HasRead(op: Op, file: File, readOk: bool)
    | Finished(op: Op)

  /** A committed operation and whether its read had succeeded. */
  datatype Commit = Commit(op: Op, readOk: bool)

  /** The disk and the calls, with the initial contents, the operations in the order they got the lock, and the
      operations in the order they were carried out. */
  datatype Sys = Sys(disk: Disk, calls: map<nat, Phase>, initial: Db, granted: seq<Op>, log: seq<Commit>)

  datatype Step =
    | Start(call: nat, op: Op)
    | TryLock(call: nat)
    | Read(call: nat, readOk: bool)
    | Write(call: nat)
    | Unlock(call: nat)

  function PhaseOf(s: Sys, call: nat): Phase {
    if call in s.calls then s.calls[call] else Idle
  }

  ghost predicate Init(s: Sys) {
    !s.disk.locked && s.calls == map[] && s.initial == s.disk.db && Unique(s.disk.db) && s.granted == [] && s.log == []
  }

  predicate Enabled(s: Sys, step: Step) {
    var p := PhaseOf(s, step.call);
    match step
    case Start(_, _) => p.Idle?
    case TryLock(_) => p.Waiting?
    case Read(_, _) => p.Locked?
    case Write(_) => p.HasRead? && Fits(p.file, CollectionOf(p.op))
    case Unlock(_) => p.Finished?
  }

  function Next(s: Sys, step: Step): Sys
    requires Enabled(s, step)
  {
    var c := step.call;
    match step
    case Start(_, op) => s.(calls := s.calls[c := Waiting(op, 0)])
    case TryLock(_) =>
      var p := s.calls[c];
      if !s.disk.locked
      then s.(disk := s.disk.(locked := true), calls := s.calls[c := Locked(p.op)], granted := s.granted + [p.op])
      else if p.attempts + 1 >= MAX_ATTEMPTS then s.(calls := s.calls[c := Idle])
      else s.(calls := s.calls[c := Waiting(p.op, p.attempts + 1)])
    case Read(_, readOk) =>
      var op := s.calls[c].op;
      var f := if readOk then FileOf(s.disk.db, CollectionOf(op)) else EmptyFile(CollectionOf(op));
      s.(calls := s.calls[c := HasRead(op, f, readOk)])
    case Write(_) =>
      var p := s.calls[c];
      var db := match Computed(p.op, p.file)
        case None => s.disk.db
        case Some(f) => WithFile(s.disk.db, CollectionOf(p.op), f);
      s.(disk := s.disk.(db := db), calls := s.calls[c := Finished(p.op)], log := s.log + [Commit(p.op, p.readOk)])
    case Unlock(_) => s.(disk := s.disk.(locked := false), calls := s.calls[c := Idle])
  }

  ghost predicate IsRun(states: seq<Sys>, steps: seq<Step>) {
    && |states| == |steps| + 1 && Init(states[0])
    && forall i :: 0 <= i < |steps| ==> Enabled(states[i], steps[i]) && states[i + 1] == Next(states[i], steps[i])
  }

  /** The commits applied one by one. */
  function Replayed(db: Db, log: seq<Commit>): Db {
    if |log| == 0 then db
    else Applied(Replayed(db, log[..|log| - 1]), log[|log| - 1].op, log[|log| - 1].readOk)
  }

  function Ops(log: seq<Commit>): seq<Op> {
    if |log| == 0 then [] else Ops(log[..|log| - 1]) + [log[|log| - 1].op]
  }

  predicate Critical(p: Phase) {
    p.Locked? || p.HasRead? || p.Finished?
  }

  /** What the call inside the lock knows: what it read is what is still on disk, and only its own operation is
      granted but not yet carried out. */
  ghost predicate HolderInv(s: Sys, p: Phase) {
    match p
    case Locked(op) => s.granted == Ops(s.log) + [op]
    case HasRead(op, file, readOk) =>
      && s.granted == Ops(s.log) + [op]
      && file == (if readOk then FileOf(s.disk.db, CollectionOf(op)) else EmptyFile(CollectionOf(op)))
    case _ => s.granted == Ops(s.log)
  }

  /** The lock file exists exactly when one call, the holder, is between acquire and release; the files are the
      commits replayed. */
  ghost predicate Inv(s: Sys, holder: Option<nat>) {
    && (s.disk.locked <==> holder.Some?)
    && (forall c :: c in s.calls ==> (Critical(s.calls[c]) <==> holder == Some(c)))
    && (holder.Some? ==> holder.value in s.calls && HolderInv(s, s.calls[holder.value]))
    && (holder.None? ==> s.granted == Ops(s.log))
    && s.disk.db == Replayed(s.initial, s.log)
    && Unique(s.disk.db)
  }

  lemma LogAppend(db: Db, log: seq<Commit>, c: Commit)
    ensures Ops(log + [c]) == Ops(log) + [c.op]
    ensures Replayed(db, log + [c]) == Applied(Replayed(db, log), c.op, c.readOk)
  {
    assert (log + [c])[..|log|] == log;
  }

  lemma WriteEffect(s: Sys, step: Step, holder: Option<nat>)
    requires Inv(s, holder) && Enabled(s, step) && step.Write?
    ensures var p := s.calls[step.call];
            && holder == Some(step.call)
            && Next(s, step) == s.(disk := s.disk.(db := Applied(s.disk.db, p.op, p.readOk)),
                                   calls := s.calls[step.call := Finished(p.op)],
                                   log := s.log + [Commit(p.op, p.readOk)])
  {
    hide FileOf, EmptyFile, Replayed, Ops, Computed, WithFile, Unique;
  }

  lemma WriteKeepsInv(s: Sys, step: Step, holder: Option<nat>)
    requires Inv(s, holder) && Enabled(s, step) && step.Write?
    ensures Inv(Next(s, step), holder)
  {
    hide FileOf, EmptyFile, Replayed, Ops, Applied, Computed, WithFile, Unique;
    var p := s.calls[step.call];
    WriteEffect(s, step, holder);
    AppliedKeepsUnique(s.disk.db, p.op, p.readOk);
    LogAppend(s.initial, s.log, Commit(p.op, p.readOk));
  }

  lemma StepKeepsInv(s: Sys, step: Step, holder: Option<nat>) returns (holder': Option<nat>)
    requires Inv(s, holder) && Enabled(s, step)
    ensures Inv(Next(s, step), holder')
  {
    if step.Write? {
      WriteKeepsInv(s, step, holder);
      return holder;
    }
    hide FileOf, EmptyFile, Replayed, Ops, Applied, Computed, WithFile, Unique;
    if step.TryLock? && !s.disk.locked {
      return Some(step.call);
    }
    if step.Unlock? {
      return None;
    }
    return holder;
  }

  lemma {:induction false} RunKeepsInv(states: seq<Sys>, steps: seq<Step>, i: nat) returns (holder: Option<nat>)
    requires IsRun(states, steps) && i < |states|
    ensures Inv(states[i], holder) && states[i].initial == states[0].disk.db
    decreases i
  {
    if i > 0 {
      holder := RunKeepsInv(states, steps, i - 1);
      holder := StepKeepsInv(states[i - 1], steps[i - 1], holder);
    } else {
      holder := None;
    }
  }

  /** At most one call is between acquire and release, in every interleaving. */
  lemma OneInsideTheLock(states: seq<Sys>, steps: seq<Step>, i: nat, c: nat, d: nat)
    requires IsRun(states, steps) && i < |states|
    requires Critical(PhaseOf(states[i], c)) && Critical(PhaseOf(states[i], d))
    ensures c == d && states[i].disk.locked
  {
    var holder := RunKeepsInv(states, steps, i);
    assert holder == Some(c);
  }

  /** While the lock file exists, one call is inside, and every step of another call, a time-out included, leaves the
      lock file, the data files and the one inside as they are; the file disappears exactly when that call removes
      it. */
  lemma OnlyHolderChangesDisk(states: seq<Sys>, steps: seq<Step>, i: nat) returns (holder: nat)
    requires IsRun(states, steps) && i < |steps| && states[i].disk.locked
    ensures Critical(PhaseOf(states[i], holder))
    ensures steps[i].call != holder ==> states[i + 1].disk == states[i].disk
                                        && PhaseOf(states[i + 1], holder) == PhaseOf(states[i], holder)
    ensures !states[i + 1].disk.locked <==> steps[i] == Unlock(holder)
  {
    var h := RunKeepsInv(states, steps, i);
    holder := h.value;
    hide Computed, WithFile, FileOf, EmptyFile, Replayed, Ops;
    assert Critical(PhaseOf(states[i], holder));
  }

  /** Serialisation: whenever the lock is free, the files are the granted operations applied one by one, in the order
      in which they got the lock. */
  lemma FilesAreSerial(states: seq<Sys>, steps: seq<Step>, i: nat)
    requires IsRun(states, steps) && i < |states| && !states[i].disk.locked
    ensures states[i].disk.db == Replayed(states[0].disk.db, states[i].log)
    ensures Ops(states[i].log) == states[i].granted
    ensures Unique(states[i].disk.db)
  {
    var holder := RunKeepsInv(states, steps, i);
  }

  // ----- reads that fail -----

  /** No record has the id, or the first one already has all the fields. */
  predicate NoEffect(records: seq<Record>, id: string, data: Record, now: string) {
    forall k :: 0 <= k < |records| && HasId(records[k], id) && (forall j :: 0 <= j < k ==> !HasId(records[j], id))
      ==> Overwritten(records[k], id, data, now) == records[k]
  }

  /** When an operation whose read failed does what it should: a create in an empty collection, an update without
      effect, and an upsert when all entries have its key. */
  predicate FailedReadHarmless(db: Db, op: Op) {
    match op
    case CreateUser(_, _, _) => db.users == []
    case CreateTransaction(_, _, _) => db.transactions == []
    case CreateAdmin(_, _, _) => db.admins == []
    case UpdateUser(id, data, now) => NoEffect(db.users, id, data, now)
    case UpdateTransaction(id, data, now) => NoEffect(db.transactions, id, data, now)
    case UpsertBalance(b) => forall i :: 0 <= i < |db.balances| ==> db.balances[i].userId == b.userId
    case SetSetting(s) => forall i :: 0 <= i < |db.settings| ==> db.settings[i].key == s.key
  }

  lemma CreateLoses(records: seq<Record>, r: Record)
    ensures records + [r] == [] + [r] <==> records == []
  {
    if records != [] {
      assert |records + [r]| != |[] + [r]|;
    }
  }

  function RecordIndex(records: seq<Record>, id: string): (i: nat)
    ensures i <= |records| && (i < |records| ==> HasId(records[i], id))
    ensures forall k :: 0 <= k < i ==> !HasId(records[k], id)
  {
    if |records| == 0 || HasId(records[0], id) then 0 else 1 + RecordIndex(records[1..], id)
  }

  lemma UpdateLoses(records: seq<Record>, id: string, data: Record, now: string)
    ensures RecordUpdated(records, id, data, now) == None || RecordUpdated(records, id, data, now) == Some(records)
            <==> NoEffect(records, id, data, now)
    ensures RecordUpdated([], id, data, now) == None
  {
    var k := RecordIndex(records, id);
    RecordUpdatedAt(records, id, data, now, k);
    RecordUpdatedAt([], id, data, now, 0);
    FirstRecord(records, id, data, now);
    hide RecordUpdated, HasId, Overwritten, NoEffect;
    if k < |records| {
      var changed := records[k := Overwritten(records[k], id, data, now)];
      assert changed[k] == Overwritten(records[k], id, data, now);
      assert changed == records <==> changed[k] == records[k];
    }
  }

  lemma FirstRecord(records: seq<Record>, id: string, data: Record, now: string)
    ensures var k := RecordIndex(records, id);
            NoEffect(records, id, data, now)
            <==> (k < |records| ==> Overwritten(records[k], id, data, now) == records[k])
  {
    hide Overwritten, HasId;
  }

  lemma BalancesLost(balances: seq<Balance>, b: Balance)
    requires UniqueBalances(balances)
    ensures BalanceUpserted([], b) == BalanceUpserted(balances, b)
            <==> forall i :: 0 <= i < |balances| ==> balances[i].userId == b.userId
  {
    BalanceUpsertedAt(balances, b, BalanceIndex(balances, b.userId));
    assert BalanceUpserted([], b) == [b];
    if |balances| > 1 {
      assert balances[0].userId != balances[1].userId;
    }
  }

  lemma SettingsLost(settings: seq<Setting>, s: Setting)
    requires UniqueSettings(settings)
    ensures SettingUpserted([], s) == SettingUpserted(settings, s)
            <==> forall i :: 0 <= i < |settings| ==> settings[i].key == s.key
  {
    SettingUpsertedAt(settings, s, SettingIndex(settings, s.key));
    assert SettingUpserted([], s) == [s];
    if |settings| > 1 {
      assert settings[0].key != settings[1].key;
    }
  }

  /** A failed read, taken for an empty collection, does no harm exactly then. */
  lemma FailedReadHarmlessIff(db: Db, op: Op)
    requires Unique(db)
    ensures Applied(db, op, false) == Applied(db, op, true) <==> FailedReadHarmless(db, op)
  {
    match op {
      case CreateUser(id, data, now) => CreateLoses(db.users, Created(id, data, now, BOTH_STAMPS));
      case CreateTransaction(id, data, now) => CreateLoses(db.transactions, Created(id, data, now, BOTH_STAMPS));
      case CreateAdmin(id, data, now) => CreateLoses(db.admins, Created(id, data, now, {"createdAt"}));
      case UpdateUser(id, data, now) => UpdateLoses(db.users, id, data, now);
      case UpdateTransaction(id, data, now) => UpdateLoses(db.transactions, id, data, now);
      case UpsertBalance(b) => BalancesLost(db.balances, b);
      case SetSetting(s) => SettingsLost(db.settings, s);
    }
    hide NoEffect, Created, RecordUpdated, BalanceUpserted, SettingUpserted;
  }

  /** The same operations with reads that succeed. */
  function WithGoodReads(log: seq<Commit>): seq<Commit> {
    if |log| == 0 then [] else WithGoodReads(log[..|log| - 1]) + [Commit(log[|log| - 1].op, true)]
  }

  /** The files are, after each operation of the log, what they would be with reads that succeed. */
  predicate AsIfGood(db: Db, log: seq<Commit>) {
    && Replayed(db, log) == Replayed(db, WithGoodReads(log))
    && (|log| > 0 ==> AsIfGood(db, log[..|log| - 1]))
  }

  predicate AllHarmless(db: Db, log: seq<Commit>) {
    |log| > 0 ==>
      && AllHarmless(db, log[..|log| - 1])
      && (log[|log| - 1].readOk || FailedReadHarmless(Replayed(db, log[..|log| - 1]), log[|log| - 1].op))
  }

  lemma {:induction false} ReplayKeepsUnique(db: Db, log: seq<Commit>)
    requires Unique(db)
    ensures Unique(Replayed(db, log))
  {
    hide Unique, Applied;
    if |log| > 0 {
      ReplayKeepsUnique(db, log[..|log| - 1]);
      AppliedKeepsUnique(Replayed(db, log[..|log| - 1]), log[|log| - 1].op, log[|log| - 1].readOk);
    }
  }

  /** Over a whole log, failed reads leave no trace at any time exactly when each of them was harmless when it
      happened. */
  lemma {:induction false} FailedReadsLeaveNoTraceIff(db: Db, log: seq<Commit>)
    requires Unique(db)
    ensures AsIfGood(db, log) <==> AllHarmless(db, log)
  {
    hide Unique, Applied, FailedReadHarmless;
    if |log| > 0 {
      var p, last := log[..|log| - 1], log[|log| - 1];
      FailedReadsLeaveNoTraceIff(db, p);
      ReplayKeepsUnique(db, p);
      FailedReadHarmlessIff(Replayed(db, p), last.op);
      LogAppend(db, WithGoodReads(p), Commit(last.op, true));
      assert WithGoodReads(log) == WithGoodReads(p) + [Commit(last.op, true)];
      assert Replayed(db, log) == Applied(Replayed(db, p), last.op, last.readOk);
    }
  }
}
