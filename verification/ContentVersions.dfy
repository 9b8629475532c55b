// Version numbers of asset content under racing uploads: read the next number, then insert under the unique index.
module ContentVersions {

  type Asset = string
  type Uploader = nat

  datatype Row = Row(asset: Asset, version: nat, content: string)

  /** An upload between its read of the next number and its insert. */
  datatype Claim = Claim(asset: Asset, version: nat, content: string)

  function MaxVersion(rows: seq<Row>, asset: Asset): (r: nat)
    ensures forall i | 0 <= i < |rows| && rows[i].asset == asset :: rows[i].version <= r
    ensures r > 0 ==> exists i :: 0 <= i < |rows| && rows[i].asset == asset && rows[i].version == r
  {
    if rows == [] then 0
    else
      var last, rest := rows[|rows| - 1], MaxVersion(rows[..|rows| - 1], asset);
      if last.asset == asset && last.version > rest then last.version else rest
  }

  predicate Taken(rows: seq<Row>, asset: Asset, version: nat) {
    exists i :: 0 <= i < |rows| && rows[i].asset == asset && rows[i].version == version
  }

  class ContentVersionTable {
    var rows: seq<Row>

    constructor ()
      ensures rows == []
    {
      rows := [];
    }

    method NextVersionNumber(asset: Asset) returns (next: nat)
      ensures !Taken(rows, asset, next) && next > 0
      ensures next == MaxVersion(rows, asset) + 1
    {
      next := MaxVersion(rows, asset) + 1;
    }

    /** The unique index on (asset, version) refuses a second row. */
    method Insert(row: Row) returns (inserted: bool)
      modifies this
      ensures inserted <==> !Taken(old(rows), row.asset, row.version)
      ensures rows == if inserted then old(rows) + [row] else old(rows)
    {
      if Taken(rows, row.asset, row.version) { return false; }
      rows := rows + [row];
      return true;
    }
  }

  /** One upload that nobody interrupts always gets its number. */
  method CreateVersion(table: ContentVersionTable, asset: Asset, content: string) returns (version: nat)
    modifies table
    ensures table.rows == old(table.rows) + [Row(asset, version, content)]
    ensures version == MaxVersion(old(table.rows), asset) + 1
  {
    version := table.NextVersionNumber(asset);
    var inserted := table.Insert(Row(asset, version, content));
  }

  // ---------------------------------------------------------------- interleaved uploads

  datatype State = State(rows: seq<Row>, pending: map<Uploader, Claim>)

  datatype Step =
    | Read(u: Uploader, asset: Asset, content: string)
    | TryInsert(u: Uploader)
    | GiveUp(u: Uploader)

  predicate Enabled(s: State, step: Step) {
    if step.Read? then step.u !in s.pending else step.u in s.pending
  }

  predicate Wins(s: State, u: Uploader)
    requires u in s.pending
  {
    !Taken(s.rows, s.pending[u].asset, s.pending[u].version)
  }

  /** A step that the uploader is not ready for changes nothing. */
  function Next(s: State, step: Step): State {
    if !Enabled(s, step) then s else
    match step
    case Read(u, asset, content) => s.(pending := s.pending[u := Claim(asset, MaxVersion(s.rows, asset) + 1, content)])
    case TryInsert(u) =>
      var c := s.pending[u];
      State(if Wins(s, u) then s.rows + [Row(c.asset, c.version, c.content)] else s.rows, s.pending - {u})
    case GiveUp(u) => s.(pending := s.pending - {u})
  }

  datatype Run = Start | Then(before: Run, step: Step)

  function After(run: Run): State {
    match run
    case Start => State([], map[])
    case Then(before, step) => Next(After(before), step)
  }

  /** The numbers of this asset are exactly 1, 2, …, n. */
  ghost predicate Gapless(rows: seq<Row>, asset: Asset) {
    forall v: nat :: Taken(rows, asset, v) <==> 1 <= v <= MaxVersion(rows, asset)
  }

  ghost predicate NoDuplicate(rows: seq<Row>) {
    forall i, j | 0 <= i < j < |rows| && rows[i].asset == rows[j].asset :: rows[i].version != rows[j].version
  }

  ghost predicate Safe(s: State) {
    && (forall asset :: Gapless(s.rows, asset))
    && NoDuplicate(s.rows)
    && (forall u | u in s.pending :: 1 <= s.pending[u].version <= MaxVersion(s.rows, s.pending[u].asset) + 1)
  }

  lemma AppendedRow(rows: seq<Row>, row: Row, asset: Asset)
    ensures MaxVersion(rows + [row], asset) ==
            if row.asset == asset && row.version > MaxVersion(rows, asset) then row.version else MaxVersion(rows, asset)
    ensures forall v: nat ::
              Taken(rows + [row], asset, v) <==> Taken(rows, asset, v) || (row.asset == asset && row.version == v)
  {
    assert (rows + [row])[..|rows|] == rows;
    forall v: nat | Taken(rows, asset, v) ensures Taken(rows + [row], asset, v) {
      var i :| 0 <= i < |rows| && rows[i].asset == asset && rows[i].version == v;
      assert (rows + [row])[i] == rows[i];
    }
    assert (rows + [row])[|rows|] == row;
  }

  /** A claim gets its number exactly when nobody else has inserted a version of the asset since it was read. */
  lemma WinsExactlyWhenUndisturbed(s: State, u: Uploader)
    requires Safe(s) && u in s.pending
    ensures Wins(s, u) <==> s.pending[u].version == MaxVersion(s.rows, s.pending[u].asset) + 1
  {
    assert Gapless(s.rows, s.pending[u].asset);
  }

  /** What each step of an upload does: the claim it makes, the row it writes, and that it is over afterwards. */
  lemma StepsOfAnUpload(s: State, u: Uploader, asset: Asset, content: string)
    ensures u !in s.pending ==>
              var t := Next(s, Read(u, asset, content));
              t.rows == s.rows && t.pending == s.pending[u := Claim(asset, MaxVersion(s.rows, asset) + 1, content)]
    ensures u in s.pending ==>
              var c, t := s.pending[u], Next(s, TryInsert(u));
              && t.pending == s.pending - {u}
              && (Taken(s.rows, c.asset, c.version) ==> t.rows == s.rows)
              && (!Taken(s.rows, c.asset, c.version) ==> t.rows == s.rows + [Row(c.asset, c.version, c.content)])
    ensures u in s.pending ==> Next(s, GiveUp(u)) == State(s.rows, s.pending - {u})
  {
  }

  lemma StepIsSafe(s: State, step: Step)
    requires Safe(s)
    ensures Safe(Next(s, step))
  {
    var t := Next(s, step);
    if step.TryInsert? && Enabled(s, step) && Wins(s, step.u) {
      var c := s.pending[step.u];
      var row := Row(c.asset, c.version, c.content);
      WinsExactlyWhenUndisturbed(s, step.u);
      forall asset ensures Gapless(t.rows, asset) && MaxVersion(t.rows, asset) >= MaxVersion(s.rows, asset) {
        assert Gapless(s.rows, asset);
        AppendedRow(s.rows, row, asset);
      }
    }
  }

  /** Whatever the interleaving: each asset's versions are exactly 1..n, and no claim is beyond n + 1. */
  lemma {:induction false} VersionsAreGapless(run: Run)
    ensures forall asset :: Gapless(After(run).rows, asset)
    ensures NoDuplicate(After(run).rows)
    ensures forall u | u in After(run).pending ::
              1 <= After(run).pending[u].version <= MaxVersion(After(run).rows, After(run).pending[u].asset) + 1
  {
    if run.Then? {
      VersionsAreGapless(run.before);
      StepIsSafe(After(run.before), run.step);
    }
  }

  /** How many versions of the asset there are. */
  function CountOf(rows: seq<Row>, asset: Asset): nat {
    if rows == [] then 0
    else CountOf(rows[..|rows| - 1], asset) + (if rows[|rows| - 1].asset == asset then 1 else 0)
  }

  lemma CountAfter(rows: seq<Row>, row: Row, asset: Asset)
    ensures CountOf(rows + [row], asset) == CountOf(rows, asset) + if row.asset == asset then 1 else 0
  {
    assert (rows + [row])[..|rows|] == rows;
  }

  /** What a step does to the table: nothing, or one row with the number after the highest. */
  lemma RowOfAStep(s: State, step: Step)
    requires Safe(s) && Next(s, step).rows != s.rows
    ensures |Next(s, step).rows| == |s.rows| + 1
    ensures var row := Next(s, step).rows[|s.rows|];
            Next(s, step).rows == s.rows + [row] && row.version == MaxVersion(s.rows, row.asset) + 1
  {
    WinsExactlyWhenUndisturbed(s, step.u);
  }

  lemma StepCounts(s: State, step: Step, asset: Asset)
    requires Safe(s) && MaxVersion(s.rows, asset) == CountOf(s.rows, asset)
    ensures MaxVersion(Next(s, step).rows, asset) == CountOf(Next(s, step).rows, asset)
  {
    if Next(s, step).rows != s.rows {
      RowOfAStep(s, step);
      var row := Next(s, step).rows[|s.rows|];
      AppendedRow(s.rows, row, asset);
      CountAfter(s.rows, row, asset);
    }
  }

  /** The highest number is the number of successful uploads of the asset. */
  lemma {:induction false} MaxIsCount(run: Run, asset: Asset)
    ensures MaxVersion(After(run).rows, asset) == CountOf(After(run).rows, asset)
  {
    if run.Then? {
      MaxIsCount(run.before, asset);
      VersionsAreGapless(run.before);
      StepCounts(After(run.before), run.step, asset);
    }
  }

  ghost predicate Extends(early: Run, late: Run) {
    late == early || (late.Then? && Extends(early, late.before))
  }

  /** Old versions are never rewritten, dropped or reordered. */
  lemma {:induction false} HistoryIsKept(early: Run, late: Run)
    requires Extends(early, late)
    ensures After(early).rows <= After(late).rows
  {
    if late != early {
      HistoryIsKept(early, late.before);
    }
  }

  /** Of two uploads that read the same number, the loser does not get in later either. */
  lemma OneWinnerPerNumber(s: State, u: Uploader, w: Uploader)
    requires u in s.pending && w in s.pending && u != w && Wins(s, u)
    requires s.pending[u].asset == s.pending[w].asset && s.pending[u].version == s.pending[w].version
    ensures var t := Next(s, TryInsert(u)); w in t.pending && !Wins(t, w)
  {
    var t := Next(s, TryInsert(u));
    assert t.rows[|s.rows|].version == s.pending[u].version;
    assert w in t.pending && t.pending[w] == s.pending[w];
  }
}
