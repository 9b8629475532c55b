// Access grants: insert under the unique index, revive a revoked row, revoke softly; and what they mean for content
// access.
module AccessGrants {
  import opened Options
  import opened ContentAccess

  datatype Key = Key(asset: Id, grantee: Id, permission: Permission)

  datatype GrantRow = GrantRow(key: Key, live: bool, grantedBy: Id)

  function Find(rows: seq<GrantRow>, key: Key): (r: Option<nat>)
    ensures r.Some? ==> r.value < |rows| && rows[r.value].key == key
    ensures r.None? ==> forall i | 0 <= i < |rows| :: rows[i].key != key
  {
    if rows == [] then None
    else if rows[|rows| - 1].key == key then Some(|rows| - 1)
    else Find(rows[..|rows| - 1], key)
  }

  predicate Live(rows: seq<GrantRow>, key: Key) {
    exists i :: 0 <= i < |rows| && rows[i].key == key && rows[i].live
  }

  /** The permissions of the rows that are not revoked. */
  ghost function ActiveGrants(rows: seq<GrantRow>, asset: Id, grantee: Id): set<Permission> {
    set p: Permission | Live(rows, Key(asset, grantee, p))
  }

  // ---------------------------------------------------------------- statements on the table

  function Revived(rows: seq<GrantRow>, row: nat, grantor: Id): seq<GrantRow> {
    if row < |rows| && !rows[row].live then rows[row := rows[row].(live := true, grantedBy := grantor)] else rows
  }

  function Revoked(rows: seq<GrantRow>, row: nat): seq<GrantRow> {
    if row < |rows| && rows[row].live then rows[row := rows[row].(live := false)] else rows
  }

  /** A new row, or the revoked row revived, or nothing for a live one. */
  function Granted(rows: seq<GrantRow>, key: Key, grantor: Id): seq<GrantRow> {
    match Find(rows, key)
    case None => rows + [GrantRow(key, true, grantor)]
    case Some(i) => Revived(rows, i, grantor)
  }

  datatype GrantReply = Issued | DuplicateActiveGrant

  class GrantTable {
    var rows: seq<GrantRow>

    constructor ()
      ensures rows == []
    {
      rows := [];
    }

    /** One call that nobody interrupts: a new row, or the revoked row revived with fresh attribution, or a conflict. */
    method CreateAccessGrant(key: Key, grantor: Id) returns (reply: GrantReply)
      requires UniqueKeys(rows)
      modifies this
      ensures UniqueKeys(rows) && rows == Granted(old(rows), key, grantor)
      ensures reply == DuplicateActiveGrant <==> Live(old(rows), key)
      ensures reply == DuplicateActiveGrant ==> rows == old(rows)
      ensures reply == Issued ==> exists i | 0 <= i < |rows| ::
                rows[i] == GrantRow(key, true, grantor) && |old(rows)| <= |rows| <= |old(rows)| + 1
                && forall j | 0 <= j < |rows| && j != i :: j < |old(rows)| && rows[j] == old(rows)[j]
    {
      var row := Find(rows, key);
      if row.None? {
        rows := rows + [GrantRow(key, true, grantor)];
        assert rows[|rows| - 1] == GrantRow(key, true, grantor);
        return Issued;
      }
      if rows[row.value].live { return DuplicateActiveGrant; }
      rows := Revived(rows, row.value, grantor);
      assert rows[row.value] == GrantRow(key, true, grantor);
      return Issued;
    }

    method RevokeAccessGrant(row: nat) returns (revoked: bool)
      modifies this
      ensures rows == Revoked(old(rows), row)
      ensures revoked ==>
                && row < |rows| == |old(rows)| && rows[row] == old(rows)[row].(live := false)
                && forall j | 0 <= j < |rows| && j != row :: rows[j] == old(rows)[j]
      ensures revoked <==> row < |old(rows)| && old(rows)[row].live
    {
      if row >= |rows| || !rows[row].live { return false; }
      rows := rows[row := rows[row].(live := false)];
      return true;
    }
  }

  // ---------------------------------------------------------------- interleaved calls

  /** A grant call between its refused insert and its revival of the row. */
  datatype Pending = MustSelect(key: Key, grantor: Id) | MustRevive(row: nat, key: Key, grantor: Id)

  /** A success the caller was told about. */
  datatype Event = WasGranted(key: Key) | WasRevoked(key: Key)

  datatype State = State(rows: seq<GrantRow>, pending: map<nat, Pending>, history: seq<Event>)

  datatype Step =
    | Insert(call: nat, key: Key, grantor: Id)
    | Select(call: nat)
    | Revive(call: nat)
    | Revoke(row: nat)

  /** A step that is not due changes nothing. */
  function Next(s: State, step: Step): State {
    match step
    case Insert(call, key, grantor) =>
      if call in s.pending then s
      else if Find(s.rows, key).None? then
        s.(rows := s.rows + [GrantRow(key, true, grantor)], history := s.history + [WasGranted(key)])
      else s.(pending := s.pending[call := MustSelect(key, grantor)])
    case Select(call) =>
      if call !in s.pending || !s.pending[call].MustSelect? then s
      else
        var p := s.pending[call];
        var row := Find(s.rows, p.key);
        if row.Some? && !s.rows[row.value].live then
          s.(pending := s.pending[call := MustRevive(row.value, p.key, p.grantor)])
        else s.(pending := s.pending - {call})
    case Revive(call) =>
      if call !in s.pending || !s.pending[call].MustRevive? then s
      else
        var p := s.pending[call];
        State(Revived(s.rows, p.row, p.grantor), s.pending - {call}, s.history + [WasGranted(p.key)])
    case Revoke(row) =>
      if row < |s.rows| && s.rows[row].live
      then s.(rows := Revoked(s.rows, row), history := s.history + [WasRevoked(s.rows[row].key)])
      else s
  }

  /** A live row can be revoked, which is recorded for its key; nothing else is a revocation. */
  lemma RevokeExactly(s: State, row: nat)
    ensures var t, live := Next(s, Revoke(row)), row < |s.rows| && s.rows[row].live;
            && t.pending == s.pending
            && (!live ==> t == s)
            && (live ==> t.rows == s.rows[row := s.rows[row].(live := false)]
                         && t.history == s.history + [WasRevoked(s.rows[row].key)])
  {
  }

  datatype Run = Start | Then(before: Run, step: Step)

  function After(run: Run): State {
    match run
    case Start => State([], map[], [])
    case Then(before, step) => Next(After(before), step)
  }

  /** The history holds a grant of this key that was not revoked since. */
  predicate Standing(history: seq<Event>, key: Key) {
    history != []
    && var last := history[|history| - 1];
       if last.key == key then last.WasGranted? else Standing(history[..|history| - 1], key)
  }

  ghost predicate UniqueKeys(rows: seq<GrantRow>) {
    forall i, j | 0 <= i < j < |rows| :: rows[i].key != rows[j].key
  }

  ghost predicate RowsTell(rows: seq<GrantRow>, history: seq<Event>) {
    forall key :: Live(rows, key) <==> Standing(history, key)
  }

  ghost predicate Safe(s: State) {
    && UniqueKeys(s.rows)
    && RowsTell(s.rows, s.history)
    && (forall call | call in s.pending && s.pending[call].MustRevive? ::
          s.pending[call].row < |s.rows| && s.rows[s.pending[call].row].key == s.pending[call].key)
  }

  lemma Recorded(history: seq<Event>, e: Event, key: Key)
    ensures Standing(history + [e], key) == if e.key == key then e.WasGranted? else Standing(history, key)
  {
    assert (history + [e])[..|history|] == history;
  }

  lemma Added(rows: seq<GrantRow>, key: Key, grantor: Id, k: Key)
    requires UniqueKeys(rows) && Find(rows, key).None?
    ensures UniqueKeys(rows + [GrantRow(key, true, grantor)])
    ensures Live(rows + [GrantRow(key, true, grantor)], k) <==> k == key || Live(rows, k)
  {
    var after := rows + [GrantRow(key, true, grantor)];
    assert after[|rows|] == GrantRow(key, true, grantor);
    if Live(rows, k) {
      var i :| 0 <= i < |rows| && rows[i].key == k && rows[i].live;
      assert after[i] == rows[i];
    }
  }

  lemma Switched(rows: seq<GrantRow>, row: nat, changed: GrantRow, k: Key)
    requires UniqueKeys(rows) && row < |rows| && changed.key == rows[row].key
    ensures UniqueKeys(rows[row := changed])
    ensures Live(rows[row := changed], k) <==> if k == changed.key then changed.live else Live(rows, k)
  {
    var after := rows[row := changed];
    if k == changed.key {
      assert after[row] == changed;
    } else if Live(rows, k) {
      var i :| 0 <= i < |rows| && rows[i].key == k && rows[i].live;
      assert after[i] == rows[i];
    }
  }

  lemma RowIsLive(rows: seq<GrantRow>, row: nat)
    requires UniqueKeys(rows) && row < |rows|
    ensures rows[row].live <==> Live(rows, rows[row].key)
  {
  }

  lemma StepIsSafe(s: State, step: Step)
    requires Safe(s)
    ensures Safe(Next(s, step))
  {
    var t := Next(s, step);
    if t.history != s.history {
      var e := t.history[|s.history|];
      forall k ensures UniqueKeys(t.rows) && (Live(t.rows, k) <==> Standing(t.history, k)) {
        Recorded(s.history, e, k);
        match step {
          case Insert(_, key, grantor) => Added(s.rows, key, grantor, k);
          case Revive(call) =>
            var p := s.pending[call];
            RowIsLive(s.rows, p.row);
            Switched(s.rows, p.row, s.rows[p.row].(live := true, grantedBy := p.grantor), k);
          case Revoke(row) => Switched(s.rows, row, s.rows[row].(live := false), k);
        }
      }
    }
  }

  /** Whatever the interleaving: one row per asset, grantee and permission, live exactly if the history says so. */
  lemma {:induction false} GrantsFollowHistory(run: Run)
    ensures Safe(After(run))
  {
    if run.Then? {
      GrantsFollowHistory(run.before);
      StepIsSafe(After(run.before), run.step);
    }
  }

  /** The interleaved statements, run without interruption, do what one call of the table's method does. */
  lemma UninterruptedGrant(s: State, call: nat, key: Key, grantor: Id)
    requires UniqueKeys(s.rows) && call !in s.pending
    ensures var t := Next(Next(Next(s, Insert(call, key, grantor)), Select(call)), Revive(call));
            && t.rows == Granted(s.rows, key, grantor)
            && t.pending == s.pending
            && (t.history == s.history <==> Live(s.rows, key))
  {
    var row := Find(s.rows, key);
    var t := Next(Next(Next(s, Insert(call, key, grantor)), Select(call)), Revive(call));
    assert t.pending == s.pending;
    if row.Some? { RowIsLive(s.rows, row.value); }
  }

  /** Rows are never dropped, and keep their asset, grantee and permission. */
  lemma RowsAreKept(run: Run, step: Step, i: nat)
    requires i < |After(run).rows|
    ensures i < |After(Then(run, step)).rows| && After(Then(run, step)).rows[i].key == After(run).rows[i].key
  {
    GrantsFollowHistory(run);
  }

  /**
   * After any run, an active verified identity that is neither administrator, owner nor custodian may view sensitive
   * content exactly if the history holds a view or edit grant to it that was not revoked since.
   */
  lemma AccessFollowsHistory(run: Run, input: Input)
    requires InGoodStanding(input) && Stranger(input)
    requires input.action == VIEW && SensitiveOrAbove(input.asset.classification)
    requires input.grants == ActiveGrants(After(run).rows, input.asset.id, input.actor.identity.value.id)
    ensures Judged(input) != DENY <==>
            exists p :: Standing(After(run).history, Key(input.asset.id, input.actor.identity.value.id, p))
  {
    var s, asset, me := After(run), input.asset.id, input.actor.identity.value.id;
    GrantsFollowHistory(run);
    StrangersNeedAGrant(input);
    forall p: Permission ensures p in input.grants <==> Standing(s.history, Key(asset, me, p)) {
      assert Live(s.rows, Key(asset, me, p)) <==> Standing(s.history, Key(asset, me, p));
    }
    if p :| Standing(s.history, Key(asset, me, p)) {
      assert p == ViewGrant || p == EditGrant;
    }
  }

  /**
   * Likewise such an identity may edit content of an asset exactly if the history holds an edit grant to it that was
   * not revoked since, and it holds the permission; without a fresh step-up it is challenged instead of allowed.
   */
  lemma EditFollowsHistory(run: Run, input: Input)
    requires InGoodStanding(input) && Stranger(input) && input.action == EDIT
    requires input.grants == ActiveGrants(After(run).rows, input.asset.id, input.actor.identity.value.id)
    ensures var held := Standing(After(run).history, Key(input.asset.id, input.actor.identity.value.id, EditGrant));
            var may := "asset:edit" in input.actor.permissions || "administration:manage" in input.actor.permissions;
            && (Judged(input) != DENY <==> held && may)
            && (Judged(input) == CHALLENGE <==> held && may && input.stepUp == Some(false))
  {
    var s, key := After(run), Key(input.asset.id, input.actor.identity.value.id, EditGrant);
    GrantsFollowHistory(run);
    StrangersExactly(input);
    ChallengedExactly(input);
    assert EditGrant in input.grants <==> Live(s.rows, key);
    assert Live(s.rows, key) <==> Standing(s.history, key);
  }
}
