/**
 The three key tables and the NOTIFY channel.  Every operation is one database transaction, so its effect
 is a function from tables to tables; `KeyStoreDb` performs the same transactions statement by statement.
 */
module KeyTables {
  import opened Base
  import opened RevokeFilter

  datatype Tombstone = Tombstone(snapshot: Row, author: Option<string>)

  datatype Action = IssueAction | RevokeAction | BulkRevokeAction

  datatype AuditRow = AuditRow(actor: string, action: Action, target: Hash, row: Row)

  /** `ati_keys`, `ati_deleted_keys`, `ati_audit_log` and the hashes passed to `pg_notify`, oldest first. */
  datatype Tables = Tables(live: map<Hash, Row>, deleted: map<Hash, Tombstone>, audit: seq<AuditRow>, notified: seq<Hash>)

  const EMPTY_TABLES := Tables(map[], map[], [], [])

  /** `Amend` stands for another writer changing a column that this store only reads. */
  datatype Tx =
    | Issue(hash: Hash, row: Row, author: Option<string>)
    | Amend(hash: Hash, row: Row)
    | Revoke(hash: Hash, author: Option<string>)
    | BulkRevoke(filter: Filter, order: seq<Hash>, author: Option<string>)

  function Actor(author: Option<string>): string {
    if author.Some? then author.value else "admin"
  }

  function Victims(t: Tables, f: Filter): set<Hash> {
    set h | h in t.live && Wanted(f, h, t.live[h])
  }

  ghost predicate Distinct(hashes: seq<Hash>) {
    forall i, j | 0 <= i < j < |hashes| :: hashes[i] != hashes[j]
  }

  /** `order` lists every element of `hashes` exactly once. */
  ghost predicate Enumerates(order: seq<Hash>, hashes: set<Hash>) {
    && Distinct(order)
    && forall h :: h in order <==> h in hashes
  }

  lemma {:induction false} EnumerationLength(order: seq<Hash>, hashes: set<Hash>)
    requires Enumerates(order, hashes)
    ensures |order| == |hashes|
  {
    if order == [] {
      assert forall h :: h !in order;
      assert hashes == {};
    } else {
      var n := |order| - 1;
      var front, h := order[..n], order[n];
      forall g ensures g in front <==> g in hashes - {h} {
        assert order == front + [h];
        if g in front {
          var i :| 0 <= i < n && front[i] == g;
          assert order[i] != order[n];
        }
      }
      EnumerationLength(front, hashes - {h});
    }
  }

  /** The unique key on (user_id, key_alias). */
  predicate AliasFree(t: Tables, row: Row) {
    forall h | h in t.live :: !(t.live[h].userId == row.userId && t.live[h].alias == row.alias)
  }

  /** Transactions that commit and change something, or report that there was nothing to revoke.  An issued
      hash is fresh: it is the SHA-256 of 16 random bytes.  `order` is the order in which the DELETE of a
      bulk revocation returned its rows. */
  ghost predicate Admissible(t: Tables, tx: Tx) {
    match tx
    case Issue(h, row, _) => h !in t.live && h !in t.deleted && AliasFree(t, row)
    case Amend(h, row) => h in t.live && row.userId == t.live[h].userId && row.alias == t.live[h].alias
    case Revoke(_, _) => true
    case BulkRevoke(f, order, _) => !IsEmpty(f) && Enumerates(order, Victims(t, f))
  }

  function RevokeOne(t: Tables, h: Hash, author: Option<string>, action: Action): Tables
    requires h in t.live
  {
    Tables(t.live - {h}, t.deleted[h := Tombstone(t.live[h], author)],
           t.audit + [AuditRow(Actor(author), action, h, t.live[h])], t.notified + [h])
  }

  /** The bulk transaction, one returned row after the other. */
  function RevokeEach(t: Tables, order: seq<Hash>, author: Option<string>): Tables {
    if order == [] then t
    else
      var before := RevokeEach(t, order[..|order| - 1], author);
      var h := order[|order| - 1];
      if h in before.live then RevokeOne(before, h, author, BulkRevokeAction) else before
  }

  function Apply(t: Tables, tx: Tx): Tables {
    match tx
    case Issue(h, row, author) =>
      t.(live := t.live[h := row], audit := t.audit + [AuditRow(Actor(author), IssueAction, h, row)])
    case Amend(h, row) => t.(live := t.live[h := row])
    case Revoke(h, author) => if h in t.live then RevokeOne(t, h, author, RevokeAction) else t
    case BulkRevoke(_, order, author) => RevokeEach(t, order, author)
  }

  /** The number of keys that the caller is told were revoked. */
  function Reported(t: Tables, tx: Tx): nat {
    match tx
    case Issue(_, _, _) => 0
    case Amend(_, _) => 0
    case Revoke(h, _) => if h in t.live then 1 else 0
    case BulkRevoke(_, order, _) => |order|
  }

  // ----- histories of transactions -----

  function Replay(txs: seq<Tx>): Tables {
    if txs == [] then EMPTY_TABLES else Apply(Replay(txs[..|txs| - 1]), txs[|txs| - 1])
  }

  ghost predicate AllAdmissible(txs: seq<Tx>) {
    txs == [] || (AllAdmissible(txs[..|txs| - 1]) && Admissible(Replay(txs[..|txs| - 1]), txs[|txs| - 1]))
  }

  function IssuedHashes(txs: seq<Tx>): set<Hash> {
    set i | 0 <= i < |txs| && txs[i].Issue? :: txs[i].hash
  }

  function TotalReported(txs: seq<Tx>): nat {
    if txs == [] then 0
    else TotalReported(txs[..|txs| - 1]) + Reported(Replay(txs[..|txs| - 1]), txs[|txs| - 1])
  }

  /** The row a hash had when it was last live in the history. */
  function LastLive(txs: seq<Tx>, h: Hash): Option<Row> {
    if h in Replay(txs).live then Some(Replay(txs).live[h])
    else if txs == [] then None
    else LastLive(txs[..|txs| - 1], h)
  }

  function RevokeRows(audit: seq<AuditRow>): seq<AuditRow> {
    if audit == [] then []
    else
      var last := audit[|audit| - 1];
      RevokeRows(audit[..|audit| - 1]) + if last.action == IssueAction then [] else [last]
  }

  lemma RevokeRowsSnoc(audit: seq<AuditRow>, r: AuditRow)
    ensures RevokeRows(audit + [r]) == RevokeRows(audit) + if r.action == IssueAction then [] else [r]
  {
    assert (audit + [r])[..|audit|] == audit;
  }

  /** What every transaction keeps: no hash is both live and deleted, the NOTIFYs name every deleted hash
      exactly once, and the revoke rows of the audit log follow the NOTIFYs one for one, each with the
      deleted row and its author. */
  ghost predicate Consistent(t: Tables) {
    && t.live.Keys !! t.deleted.Keys
    && Enumerates(t.notified, t.deleted.Keys)
    && Audited(RevokeRows(t.audit), t.notified, t.deleted)
  }

  ghost predicate Audited(rows: seq<AuditRow>, notified: seq<Hash>, deleted: map<Hash, Tombstone>) {
    && |rows| == |notified|
    && forall i | 0 <= i < |notified| :: notified[i] in deleted && Documents(rows[i], notified[i], deleted[notified[i]])
  }

  predicate Documents(r: AuditRow, h: Hash, grave: Tombstone) {
    r.target == h && r.row == grave.snapshot && r.actor == Actor(grave.author)
  }

  lemma RevokeOneKeeps(t: Tables, h: Hash, author: Option<string>, action: Action)
    requires Consistent(t) && h in t.live && action != IssueAction
    ensures Consistent(RevokeOne(t, h, author, action))
    ensures Buries(t, RevokeOne(t, h, author, action))
  {
    var t' := RevokeOne(t, h, author, action);
    RevokeRowsSnoc(t.audit, AuditRow(Actor(author), action, h, t.live[h]));
    assert forall g :: g in t.notified <==> g in t.deleted;
    assert h !in t.notified;
    assert Distinct(t'.notified);
    forall g ensures g in t'.notified <==> g in t'.deleted.Keys {
    }
  }

  /** `t'` comes from `t` by revocations only: the remaining rows and the old tombstones are untouched, and a
      key that disappeared has a tombstone with the row it had. */
  ghost predicate Buries(t: Tables, t': Tables) {
    && (forall h | h in t'.live :: h in t.live && t'.live[h] == t.live[h])
    && (forall h | h in t.deleted :: h in t'.deleted && t'.deleted[h] == t.deleted[h])
    && (forall h | h in t'.deleted && h !in t.deleted :: h in t.live && t'.deleted[h].snapshot == t.live[h])
    && (forall h | h in t.live && h !in t'.live :: h in t'.deleted)
    && t.notified <= t'.notified
  }

  lemma BuriesTransitive(a: Tables, b: Tables, c: Tables)
    requires Buries(a, b) && Buries(b, c)
    ensures Buries(a, c)
  {
  }

  /** A bulk revocation of distinct live keys removes exactly those keys, one NOTIFY each. */
  lemma {:induction false} RevokeEachRemoves(t: Tables, order: seq<Hash>, author: Option<string>)
    requires Distinct(order) && forall i | 0 <= i < |order| :: order[i] in t.live
    ensures forall h :: h in RevokeEach(t, order, author).live <==> h in t.live && h !in order
    ensures RevokeEach(t, order, author).notified == t.notified + order
  {
    if order != [] {
      var front, h := order[..|order| - 1], order[|order| - 1];
      RevokeEachRemoves(t, front, author);
      assert order == front + [h];
      assert h !in front;
    }
  }

  lemma {:induction false} RevokeEachKeeps(t: Tables, order: seq<Hash>, author: Option<string>)
    requires Consistent(t)
    ensures Consistent(RevokeEach(t, order, author))
    ensures Buries(t, RevokeEach(t, order, author))
  {
    if order != [] {
      var front, h := order[..|order| - 1], order[|order| - 1];
      RevokeEachKeeps(t, front, author);
      var before := RevokeEach(t, front, author);
      if h in before.live {
        RevokeOneKeeps(before, h, author, BulkRevokeAction);
        BuriesTransitive(t, before, RevokeOne(before, h, author, BulkRevokeAction));
      }
    }
  }

  /** The effect of a transaction on which keys are live, deleted and notified. */
  ghost predicate Accounts(t: Tables, tx: Tx, t': Tables) {
    && |t'.notified| == |t.notified| + Reported(t, tx)
    && (tx.Issue? || tx.Amend? ==> t'.deleted == t.deleted && t'.notified == t.notified)
    && (tx.Issue? ==> t'.live == t.live[tx.hash := tx.row])
    && (tx.Amend? ==> t'.live.Keys == t.live.Keys)
    && (tx.Revoke? || tx.BulkRevoke? ==> Buries(t, t'))
  }

  lemma ApplyKeeps(t: Tables, tx: Tx)
    requires Consistent(t) && Admissible(t, tx)
    ensures Consistent(Apply(t, tx))
    ensures Accounts(t, tx, Apply(t, tx))
  {
    match tx
    case Issue(h, row, author) =>
      RevokeRowsSnoc(t.audit, AuditRow(Actor(author), IssueAction, h, row));
    case Amend(h, row) =>
    case Revoke(h, author) =>
      if h in t.live {
        RevokeOneKeeps(t, h, author, RevokeAction);
      }
    case BulkRevoke(f, order, author) =>
      forall i | 0 <= i < |order| ensures order[i] in t.live {
        assert order[i] in order;
      }
      RevokeEachRemoves(t, order, author);
      RevokeEachKeeps(t, order, author);
  }

  lemma {:induction false} ReplayConsistent(txs: seq<Tx>)
    requires AllAdmissible(txs)
    ensures Consistent(Replay(txs))
    ensures TotalReported(txs) == |Replay(txs).notified|
  {
    if txs != [] {
      ReplayConsistent(txs[..|txs| - 1]);
      ApplyKeeps(Replay(txs[..|txs| - 1]), txs[|txs| - 1]);
    }
  }

  lemma {:induction false} IssuedAreLiveOrDeleted(txs: seq<Tx>, h: Hash)
    requires AllAdmissible(txs)
    ensures h in IssuedHashes(txs) <==> h in Replay(txs).live || h in Replay(txs).deleted
  {
    if txs != [] {
      var n := |txs| - 1;
      IssuedAreLiveOrDeleted(txs[..n], h);
      ReplayConsistent(txs[..n]);
      ApplyKeeps(Replay(txs[..n]), txs[n]);
      IssuedSnoc(txs, h);
    }
  }

  lemma IssuedSnoc(txs: seq<Tx>, h: Hash)
    requires txs != []
    ensures var n := |txs| - 1;
            h in IssuedHashes(txs) <==> h in IssuedHashes(txs[..n]) || (txs[n].Issue? && txs[n].hash == h)
  {
    var n := |txs| - 1;
    if h in IssuedHashes(txs) {
      var i :| 0 <= i < |txs| && txs[i].Issue? && txs[i].hash == h;
      assert i == n || txs[..n][i] == txs[i];
    }
    if h in IssuedHashes(txs[..n]) {
      var i :| 0 <= i < n && txs[..n][i].Issue? && txs[..n][i].hash == h;
      assert txs[i] == txs[..n][i];
    }
  }

  lemma {:induction false} SnapshotIsLastLive(txs: seq<Tx>, h: Hash)
    requires AllAdmissible(txs) && h in Replay(txs).deleted
    ensures LastLive(txs, h) == Some(Replay(txs).deleted[h].snapshot)
  {
    ReplayConsistent(txs);
    if txs != [] {
      var n := |txs| - 1;
      ReplayConsistent(txs[..n]);
      ApplyKeeps(Replay(txs[..n]), txs[n]);
      if h in Replay(txs[..n]).deleted {
        SnapshotIsLastLive(txs[..n], h);
      }
    }
  }

  lemma AdmissibleSnoc(txs: seq<Tx>, tx: Tx)
    requires AllAdmissible(txs) && Admissible(Replay(txs), tx)
    ensures AllAdmissible(txs + [tx])
    ensures Replay(txs + [tx]) == Apply(Replay(txs), tx)
  {
    var txs' := txs + [tx];
    assert txs'[..|txs|] == txs;
  }

  /** Row `i` is the only revoke row of the audit log about `h`, and it holds the snapshot. */
  ghost predicate OnlyRevokeRow(t: Tables, h: Hash, i: nat)
    requires h in t.deleted
  {
    var rows := RevokeRows(t.audit);
    && i < |rows|
    && Documents(rows[i], h, t.deleted[h])
    && forall j | 0 <= j < |rows| && rows[j].target == h :: j == i
  }

  /** Conservation of keys over any history of issues, revocations and bulk revocations. */
  lemma KeysAreConserved(txs: seq<Tx>)
    requires AllAdmissible(txs)
    ensures IssuedHashes(txs) == Replay(txs).live.Keys + Replay(txs).deleted.Keys
    ensures Replay(txs).live.Keys !! Replay(txs).deleted.Keys
    ensures TotalReported(txs) == |Replay(txs).deleted|
    ensures Enumerates(Replay(txs).notified, Replay(txs).deleted.Keys)
  {
    forall h
      ensures h in IssuedHashes(txs) <==> h in Replay(txs).live.Keys + Replay(txs).deleted.Keys
    {
      IssuedAreLiveOrDeleted(txs, h);
    }
    ReplayConsistent(txs);
    EnumerationLength(Replay(txs).notified, Replay(txs).deleted.Keys);
  }

  /** Every deleted key is documented: its tombstone holds the last row it had while live, and the audit log
      has exactly one revoke row about it, with that row. */
  lemma DeletedKeyIsDocumented(txs: seq<Tx>, h: Hash) returns (i: nat)
    requires AllAdmissible(txs) && h in Replay(txs).deleted
    ensures LastLive(txs, h) == Some(Replay(txs).deleted[h].snapshot)
    ensures OnlyRevokeRow(Replay(txs), h, i)
  {
    SnapshotIsLastLive(txs, h);
    ReplayConsistent(txs);
    var t := Replay(txs);
    assert h in t.notified;
    i :| 0 <= i < |t.notified| && t.notified[i] == h;
  }

  function IssueRows(audit: seq<AuditRow>): seq<AuditRow> {
    if audit == [] then []
    else
      var last := audit[|audit| - 1];
      IssueRows(audit[..|audit| - 1]) + if last.action == IssueAction then [last] else []
  }

  /** The audit rows that the issues of a history call for. */
  function IssuesOf(txs: seq<Tx>): seq<AuditRow> {
    if txs == [] then []
    else
      var last := txs[|txs| - 1];
      IssuesOf(txs[..|txs| - 1])
      + if last.Issue? then [AuditRow(Actor(last.author), IssueAction, last.hash, last.row)] else []
  }

  lemma IssueRowsSnoc(audit: seq<AuditRow>, r: AuditRow)
    ensures IssueRows(audit + [r]) == IssueRows(audit) + if r.action == IssueAction then [r] else []
  {
    assert (audit + [r])[..|audit|] == audit;
  }

  lemma {:induction false} RevokeEachIssuesNothing(t: Tables, order: seq<Hash>, author: Option<string>)
    ensures IssueRows(RevokeEach(t, order, author).audit) == IssueRows(t.audit)
  {
    if order != [] {
      var h := order[|order| - 1];
      var before := RevokeEach(t, order[..|order| - 1], author);
      RevokeEachIssuesNothing(t, order[..|order| - 1], author);
      if h in before.live {
        IssueRowsSnoc(before.audit, AuditRow(Actor(author), BulkRevokeAction, h, before.live[h]));
      }
    }
  }

  /** The issue rows of the audit log are the issues of the history, in order, each with its actor and row. */
  lemma {:induction false} IssuesAreAudited(txs: seq<Tx>)
    ensures IssueRows(Replay(txs).audit) == IssuesOf(txs)
  {
    if txs != [] {
      var before, tx := Replay(txs[..|txs| - 1]), txs[|txs| - 1];
      IssuesAreAudited(txs[..|txs| - 1]);
      match tx
      case Issue(h, row, author) =>
        IssueRowsSnoc(before.audit, AuditRow(Actor(author), IssueAction, h, row));
      case Amend(_, _) =>
      case Revoke(h, author) =>
        if h in before.live {
          IssueRowsSnoc(before.audit, AuditRow(Actor(author), RevokeAction, h, before.live[h]));
        }
      case BulkRevoke(_, order, author) =>
        RevokeEachIssuesNothing(before, order, author);
    }
  }

  /** `order` lists the victims that are no longer pending. */
  ghost predicate Lists(order: seq<Hash>, victims: set<Hash>, pending: set<Hash>) {
    Distinct(order) && forall h :: h in order <==> h in victims && h !in pending
  }

  lemma ListsNext(order: seq<Hash>, victims: set<Hash>, pending: set<Hash>, h: Hash)
    requires Lists(order, victims, pending) && h in pending && pending <= victims
    ensures Lists(order + [h], victims, pending - {h})
  {
    forall g ensures g in order + [h] <==> g in victims && g !in pending - {h} {
    }
  }

  lemma {:induction false} RevokeEachRows(t: Tables, order: seq<Hash>, author: Option<string>)
    ensures forall h | h in RevokeEach(t, order, author).live ::
              h in t.live && RevokeEach(t, order, author).live[h] == t.live[h]
  {
    if order != [] {
      RevokeEachRows(t, order[..|order| - 1], author);
    }
  }

  lemma DeleteIsRevokeEach(t: Tables, order: seq<Hash>, victims: set<Hash>, author: Option<string>)
    requires Enumerates(order, victims) && victims <= t.live.Keys
    ensures RevokeEach(t, order, author).live == t.live - victims
  {
    forall i | 0 <= i < |order| ensures order[i] in t.live {
      assert order[i] in order;
    }
    RevokeEachRemoves(t, order, author);
    RevokeEachRows(t, order, author);
  }

  lemma LastIsStillLive(t: Tables, order: seq<Hash>, author: Option<string>)
    requires order != [] && Distinct(order) && forall i | 0 <= i < |order| :: order[i] in t.live
    ensures var n := |order| - 1; var before := RevokeEach(t, order[..n], author);
            order[n] !in order[..n] && order[n] in before.live && before.live[order[n]] == t.live[order[n]]
  {
    RevokeEachRemoves(t, order[..|order| - 1], author);
    RevokeEachRows(t, order[..|order| - 1], author);
  }

  /** What the deleted-keys table holds for a hash. */
  function GraveAt(t: Tables, h: Hash): Option<Tombstone> {
    if h in t.deleted then Some(t.deleted[h]) else None
  }

  lemma {:induction false} RevokeEachEntombs(t: Tables, order: seq<Hash>, author: Option<string>, h: Hash)
    requires Distinct(order) && forall i | 0 <= i < |order| :: order[i] in t.live
    ensures h in order ==> h in t.live && GraveAt(RevokeEach(t, order, author), h) == Some(Tombstone(t.live[h], author))
    ensures h !in order ==> GraveAt(RevokeEach(t, order, author), h) == GraveAt(t, h)
  {
    if order != [] {
      var front, last := order[..|order| - 1], order[|order| - 1];
      RevokeEachEntombs(t, front, author, h);
      LastIsStillLive(t, order, author);
      assert order == front + [last];
    }
  }

  lemma {:induction false} RevokeEachWrites(t: Tables, order: seq<Hash>, author: Option<string>)
    requires Distinct(order) && forall i | 0 <= i < |order| :: order[i] in t.live
    ensures RevokeEach(t, order, author).audit == t.audit + AuditRows(t, order, author)
  {
    if order == [] {
      assert t.audit + [] == t.audit;
    } else {
      var front, h := order[..|order| - 1], order[|order| - 1];
      RevokeEachWrites(t, front, author);
      LastIsStillLive(t, order, author);
      Assoc(t.audit, AuditRows(t, front, author), [AuditRow(Actor(author), BulkRevokeAction, h, t.live[h])]);
    }
  }

  /** One audit row for each key, in order. */
  function AuditRows(t: Tables, order: seq<Hash>, author: Option<string>): (rows: seq<AuditRow>)
    requires forall i | 0 <= i < |order| :: order[i] in t.live
    ensures |rows| == |order|
    ensures forall i | 0 <= i < |order| ::
              rows[i] == AuditRow(if author.Some? then author.value else "admin", BulkRevokeAction, order[i], t.live[order[i]])
  {
    if order == [] then []
    else
      var h := order[|order| - 1];
      AuditRows(t, order[..|order| - 1], author) + [AuditRow(Actor(author), BulkRevokeAction, h, t.live[h])]
  }

  /** The keys in `order` are gone, and each has its tombstone, its audit row and its NOTIFY; nothing else changed. */
  ghost predicate Buried(t: Tables, t': Tables, order: seq<Hash>, author: Option<string>) {
    && (forall i | 0 <= i < |order| :: order[i] in t.live)
    && t'.live == t.live - (set h | h in order) && t'.notified == t.notified + order
    && (forall h | h in order :: h in t.live && GraveAt(t', h) == Some(Tombstone(t.live[h], author)))
    && (forall h | h !in order :: GraveAt(t', h) == GraveAt(t, h))
    && t'.audit == t.audit + AuditRows(t, order, author)
  }

  lemma RevokeEachBuries(t: Tables, order: seq<Hash>, victims: set<Hash>, author: Option<string>)
    requires Enumerates(order, victims) && victims <= t.live.Keys
    ensures Buried(t, RevokeEach(t, order, author), order, author)
  {
    forall i | 0 <= i < |order| ensures order[i] in t.live {
      assert order[i] in order;
    }
    DeleteIsRevokeEach(t, order, victims, author);
    RevokeEachRemoves(t, order, author);
    RevokeEachWrites(t, order, author);
    forall h
      ensures h in order ==> h in t.live && GraveAt(RevokeEach(t, order, author), h) == Some(Tombstone(t.live[h], author))
      ensures h !in order ==> GraveAt(RevokeEach(t, order, author), h) == GraveAt(t, h) {
      RevokeEachEntombs(t, order, author, h);
    }
    assert victims == set h | h in order;
  }

  // ----- the transactions, statement by statement -----

  datatype StoreError = InvalidParams(reason: string) | Sqlx(reason: string)

  datatype IssueParams = IssueParams(userId: string, alias: string, expiresIn: Option<nat>, createdBy: Option<string>)

  /** `limit` is the longest time to live that the type for durations can hold. */
  predicate Acceptable(params: IssueParams, limit: nat) {
    !Blank(params.userId) && !Blank(params.alias) && (params.expiresIn.Some? ==> params.expiresIn.value <= limit)
  }

  /** A key without a time to live never expires. */
  function NewRow(params: IssueParams, now: int): Row {
    Row(params.alias, params.userId, false, 0,
        if params.expiresIn.Some? then Some(now + params.expiresIn.value) else None)
  }

  class KeyStoreDb {
    var live: map<Hash, Row>
    var deleted: map<Hash, Tombstone>
    var audit: seq<AuditRow>
    var notified: seq<Hash>
    const maxDuration: nat

    function Now(): Tables
      reads this
    {
      Tables(live, deleted, audit, notified)
    }

    constructor (maxDuration: nat)
      ensures Now() == EMPTY_TABLES && this.maxDuration == maxDuration
    {
      this.maxDuration := maxDuration;
      live, deleted, audit, notified := map[], map[], [], [];
    }

    /** A rejected issue (blank owner or alias, a time to live beyond what a duration can hold, or an alias the
        owner already has) changes nothing; any other stores the row and its audit row. */
    method Issue(hash: Hash, params: IssueParams, now: int) returns (r: Result<Row, StoreError>)
      requires hash !in live && hash !in deleted
      modifies this
      ensures r.Ok? <==>
                && !Blank(params.userId) && !Blank(params.alias)
                && (params.expiresIn.Some? ==> params.expiresIn.value <= maxDuration)
                && forall h | h in old(live) :: old(live)[h].userId != params.userId || old(live)[h].alias != params.alias
      ensures r.Ok? ==>
                && r.value.alias == params.alias && r.value.userId == params.userId && !r.value.blocked && r.value.requestCount == 0
                && r.value.expiresAt == (if params.expiresIn.Some? then Some(now + params.expiresIn.value) else None)
      ensures r.Ok? ==>
                && live == old(live)[hash := r.value] && deleted == old(deleted) && notified == old(notified)
                && audit == old(audit) + [AuditRow(if params.createdBy.Some? then params.createdBy.value else "admin",
                                                   IssueAction, hash, r.value)]
      ensures r.Ok? ==> Admissible(old(Now()), Tx.Issue(hash, r.value, params.createdBy))
                        && Now() == Apply(old(Now()), Tx.Issue(hash, r.value, params.createdBy))
      ensures r.Err? ==> Now() == old(Now())
      ensures r.Err? ==> (r.error.Sqlx? <==> Acceptable(params, maxDuration))
    {
      if Blank(params.userId) {
        return Err(InvalidParams("user_id is required"));
      }
      if Blank(params.alias) {
        return Err(InvalidParams("key_alias is required"));
      }
      if params.expiresIn.Some? && params.expiresIn.value > maxDuration {
        return Err(InvalidParams("expires_in overflows chrono::Duration"));
      }
      if exists h :: h in live && live[h].userId == params.userId && live[h].alias == params.alias {
        return Err(Sqlx("duplicate key value violates unique constraint"));
      }
      var row := NewRow(params, now);
      live := live[hash := row];
      audit := audit + [AuditRow(Actor(params.createdBy), IssueAction, hash, row)];
      r := Ok(row);
    }

    method Revoke(hash: Hash, author: Option<string>) returns (existed: bool)
      modifies this
      ensures existed <==> hash in old(live)
      ensures existed ==>
                && live == old(live) - {hash} && deleted == old(deleted)[hash := Tombstone(old(live)[hash], author)]
                && audit == old(audit) + [AuditRow(if author.Some? then author.value else "admin", RevokeAction, hash, old(live)[hash])]
                && notified == old(notified) + [hash]
      ensures !existed ==> Now() == old(Now())
      ensures Now() == Apply(old(Now()), Tx.Revoke(hash, author))
    {
      if hash !in live {
        return false;
      }
      var snapshot := live[hash];
      live := live - {hash};
      deleted := deleted[hash := Tombstone(snapshot, author)];
      audit := audit + [AuditRow(Actor(author), RevokeAction, hash, snapshot)];
      notified := notified + [hash];
      existed := true;
    }

    /** The loop over the deleted rows: tombstone, audit row and NOTIFY for each of them. */
    method BuryRows(rows: map<Hash, Row>, author: Option<string>, ghost before: Tables)
      returns (count: nat, ghost order: seq<Hash>)
      requires deleted == before.deleted && audit == before.audit && notified == before.notified
      requires forall h | h in rows :: h in before.live && before.live[h] == rows[h]
      modifies this`deleted, this`audit, this`notified
      ensures Enumerates(order, rows.Keys) && count == |order|
      ensures var after := RevokeEach(before, order, author);
              deleted == after.deleted && audit == after.audit && notified == after.notified
    {
      order := [];
      count := 0;
      var pending := rows.Keys;
      ghost var step := before;
      while pending != {}
        invariant pending <= rows.Keys
        invariant Lists(order, rows.Keys, pending) && count == |order|
        invariant step == RevokeEach(before, order, author)
        invariant forall h | h in pending :: h in step.live && step.live[h] == rows[h]
        invariant deleted == step.deleted && audit == step.audit && notified == step.notified
      {
        var h :| h in pending;
        deleted := deleted[h := Tombstone(rows[h], author)];
        audit := audit + [AuditRow(Actor(author), BulkRevokeAction, h, rows[h])];
        notified := notified + [h];
        count := count + 1;
        assert (order + [h])[..|order|] == order;
        ListsNext(order, rows.Keys, pending, h);
        order := order + [h];
        pending := pending - {h};
        step := RevokeOne(step, h, author, BulkRevokeAction);
      }
    }

    /** One DELETE removes every selected row; tombstone, audit row and NOTIFY are then written row by row, in
        the order in which the rows came back. */
    method BulkRevoke(filter: Filter, author: Option<string>) returns (r: Result<nat, StoreError>, ghost order: seq<Hash>)
      modifies this
      ensures r.Err? <==>
                && (filter.userId.None? || Blank(filter.userId.value)) && (filter.aliasPrefix.None? || Blank(filter.aliasPrefix.value))
                && (filter.hashes.None? || filter.hashes.value == [])
      ensures r.Err? ==> Now() == old(Now())
      ensures r.Ok? ==> r.value == |order| && Enumerates(order, Victims(old(Now()), filter))
                        && Buried(old(Now()), Now(), order, author)
      ensures r.Ok? ==> Admissible(old(Now()), Tx.BulkRevoke(filter, order, author))
                        && r.value == Reported(old(Now()), Tx.BulkRevoke(filter, order, author))
                        && Now() == Apply(old(Now()), Tx.BulkRevoke(filter, order, author))
    {
      order := [];
      if IsEmpty(filter) {
        EmptyExactlyIfBlank(filter);
        return Err(InvalidParams("bulk_revoke requires at least one filter field")), order;
      }
      ghost var before := Now();
      var clauses, binds := BuildWhere(filter);
      var rows := map h | h in live && Selects(clauses, binds, h, live[h]) :: live[h];
      live := live - rows.Keys;
      var count;
      count, order := BuryRows(rows, author, before);
      r := Ok(count);
      assert rows.Keys == Victims(before, filter);
      DeleteIsRevokeEach(before, order, rows.Keys, author);
      EmptyExactlyIfBlank(filter);
      RevokeEachBuries(before, order, rows.Keys, author);
    }
  }
}
