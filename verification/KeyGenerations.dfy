// Post-quantum key rows of a DID: registration, rotation and revocation, and the identifiers that carry the generation.
module KeyGenerations {
  import opened Options

  type Did = string
  type PublicKey = string

  // ---------------------------------------------------------------- identifiers

  predicate IsDigit(c: char) {
    '0' <= c <= '9'
  }

  function Decimal(n: nat): (s: string)
    ensures s != [] && forall i | 0 <= i < |s| :: IsDigit(s[i])
  {
    if n < 10 then ['0' + n as char] else Decimal(n / 10) + ['0' + (n % 10) as char]
  }

  function Number(s: string): nat
    requires forall i | 0 <= i < |s| :: IsDigit(s[i])
  {
    if s == [] then 0
    else
      var last := s[|s| - 1];
      assert IsDigit(last);
      10 * Number(s[..|s| - 1]) + (last as nat - '0' as nat)
  }

  lemma {:induction false} NumberOfDecimal(n: nat)
    ensures Number(Decimal(n)) == n
  {
    if n >= 10 {
      NumberOfDecimal(n / 10);
      assert Decimal(n)[..|Decimal(n)| - 1] == Decimal(n / 10);
    } else {
      assert Decimal(n)[..0] == [];
    }
  }

  function DigitRun(s: string): (k: nat)
    ensures k <= |s| && (forall i | 0 <= i < k :: IsDigit(s[i])) && (k < |s| ==> !IsDigit(s[k]))
  {
    if s == [] || !IsDigit(s[0]) then 0 else 1 + DigitRun(s[1..])
  }

  lemma {:induction false} DigitRunEnds(digits: string, tail: string)
    requires forall i | 0 <= i < |digits| :: IsDigit(digits[i])
    requires tail != [] && !IsDigit(tail[0])
    ensures DigitRun(digits + tail) == |digits|
  {
    if digits == [] {
      assert digits + tail == tail;
    } else {
      DigitRunEnds(digits[1..], tail);
      assert (digits + tail)[1..] == digits[1..] + tail;
    }
  }

  /** The digest of DID and generation, cut to twelve characters. */
  type Digest = (Did, nat) -> string

  function KeyIdentifierFor(digest: Digest, did: Did, generation: nat): string {
    "pqc-key-" + Decimal(generation) + "-" + digest(did, generation)
  }

  function GenerationOf(identifier: string): nat {
    if |identifier| < 8 || identifier[..8] != "pqc-key-" then 1
    else
      var rest := identifier[8..];
      var k := DigitRun(rest);
      if k > 0 && k < |rest| && rest[k] == '-' then Number(rest[..k]) else 1
  }

  lemma GenerationRoundTrip(digest: Digest, did: Did, generation: nat)
    ensures GenerationOf(KeyIdentifierFor(digest, did, generation)) == generation
  {
    var identifier, d := KeyIdentifierFor(digest, did, generation), Decimal(generation);
    var rest := identifier[8..];
    assert identifier[..8] == "pqc-key-";
    assert rest == d + "-" + digest(did, generation);
    assert rest == d + ("-" + digest(did, generation));
    DigitRunEnds(d, "-" + digest(did, generation));
    assert rest[..|d|] == d && rest[|d|] == '-';
    NumberOfDecimal(generation);
  }

  lemma IdentifiersDiffer(digest: Digest, did: Did, g: nat, h: nat)
    requires KeyIdentifierFor(digest, did, g) == KeyIdentifierFor(digest, did, h)
    ensures g == h
  {
    GenerationRoundTrip(digest, did, g);
    GenerationRoundTrip(digest, did, h);
  }

  // ---------------------------------------------------------------- the rows of one DID

  datatype Status = ACTIVE | ROTATED | REVOKED

  datatype KeyRow = KeyRow(identifier: string, publicKey: PublicKey, status: Status, supersededBy: Option<string>)

  /** The newest ACTIVE row. */
  function Active(rows: seq<KeyRow>): (r: Option<nat>)
    ensures r.Some? ==> r.value < |rows| && rows[r.value].status == ACTIVE
    ensures forall i | 0 <= i < |rows| && rows[i].status == ACTIVE :: r.Some? && i <= r.value
  {
    if rows == [] then None
    else if rows[|rows| - 1].status == ACTIVE then Some(|rows| - 1)
    else Active(rows[..|rows| - 1])
  }

  /** The row with this identifier, if the unique index knows it. */
  function Find(rows: seq<KeyRow>, identifier: string): (r: Option<nat>)
    ensures r.Some? ==> r.value < |rows| && rows[r.value].identifier == identifier
    ensures r.None? ==> forall i | 0 <= i < |rows| :: rows[i].identifier != identifier
  {
    if rows == [] then None
    else if rows[|rows| - 1].identifier == identifier then Some(|rows| - 1)
    else Find(rows[..|rows| - 1], identifier)
  }

  /** Insert, or on a duplicate replace the public key and reactivate. */
  function Inserted(rows: seq<KeyRow>, identifier: string, publicKey: PublicKey): seq<KeyRow> {
    match Find(rows, identifier)
    case Some(i) => rows[i := rows[i].(publicKey := publicKey, status := ACTIVE)]
    case None => rows + [KeyRow(identifier, publicKey, ACTIVE, None)]
  }

  /** Insert, or on a duplicate only reactivate. */
  function Reactivated(rows: seq<KeyRow>, identifier: string, publicKey: PublicKey): seq<KeyRow> {
    match Find(rows, identifier)
    case Some(i) => rows[i := rows[i].(status := ACTIVE)]
    case None => rows + [KeyRow(identifier, publicKey, ACTIVE, None)]
  }

  function Retired(rows: seq<KeyRow>, identifier: string, successor: string): (r: seq<KeyRow>)
    ensures |r| == |rows|
    ensures forall i | 0 <= i < |rows| ::
              r[i] == if rows[i].identifier == identifier
                      then rows[i].(status := ROTATED, supersededBy := Some(successor)) else rows[i]
  {
    if rows == [] then []
    else [if rows[0].identifier == identifier then rows[0].(status := ROTATED, supersededBy := Some(successor))
          else rows[0]]
         + Retired(rows[1..], identifier, successor)
  }

  function AllRevoked(rows: seq<KeyRow>): (r: seq<KeyRow>)
    ensures |r| == |rows| && forall i | 0 <= i < |rows| :: r[i] == rows[i].(status := REVOKED)
  {
    if rows == [] then [] else [rows[0].(status := REVOKED)] + AllRevoked(rows[1..])
  }

  function SuccessorOf(digest: Digest, did: Did, identifier: string): string {
    KeyIdentifierFor(digest, did, GenerationOf(identifier) + 1)
  }

  function Rotated(rows: seq<KeyRow>, previous: string, successor: string, publicKey: PublicKey): seq<KeyRow> {
    Reactivated(Retired(rows, previous, successor), successor, publicKey)
  }

  function Registered(digest: Digest, did: Did, rows: seq<KeyRow>, publicKey: PublicKey): seq<KeyRow> {
    match Active(rows)
    case None => Inserted(rows, KeyIdentifierFor(digest, did, 1), publicKey)
    case Some(i) => Rotated(rows, rows[i].identifier, SuccessorOf(digest, did, rows[i].identifier), publicKey)
  }

  // ---------------------------------------------------------------- procedures

  type Table = map<Did, seq<KeyRow>>

  datatype Call =
    | Register(did: Did, eligible: bool, publicKey: Option<PublicKey>, proved: bool)
    | Revoke(actor: Did, admin: bool, named: Option<Did>)

  datatype Reply = Forbidden | BadRequest | NotFound | Done

  function RowsOf(t: Table, did: Did): seq<KeyRow> {
    if did in t then t[did] else []
  }

  function Target(call: Call): Did {
    match call
    case Register(did, _, _, _) => did
    case Revoke(actor, _, named) => if named.Some? && named.value != actor then named.value else actor
  }

  predicate MayRevoke(call: Call) {
    call.Revoke? && (Target(call) == call.actor || call.admin)
  }

  predicate MayRegister(call: Call) {
    call.Register? && call.eligible && call.publicKey.Some? && call.proved
  }

  function Apply(digest: Digest, t: Table, call: Call): (Table, Reply) {
    match call
    case Register(did, eligible, publicKey, proved) =>
      if !eligible then (t, Forbidden)
      else if publicKey.None? || !proved then (t, BadRequest)
      else (t[did := Registered(digest, did, RowsOf(t, did), publicKey.value)], Done)
    case Revoke(actor, admin, named) =>
      if !MayRevoke(call) then (t, Forbidden)
      else if Active(RowsOf(t, Target(call))).None? then (t, NotFound)
      else (t[Target(call) := AllRevoked(RowsOf(t, Target(call)))], Done)
  }

  class KeyRecords {
    const digest: Digest
    var rows: Table

    constructor (digest: Digest)
      ensures this.digest == digest && rows == map[]
    {
      this.digest := digest;
      rows := map[];
    }

    method RegisterPqcKeyRecord(did: Did, identifier: string, publicKey: PublicKey)
      modifies this
      ensures rows == old(rows)[did := Inserted(RowsOf(old(rows), did), identifier, publicKey)]
    {
      var mine := RowsOf(rows, did);
      var duplicate := Find(mine, identifier);
      if duplicate.Some? {
        mine := mine[duplicate.value := mine[duplicate.value].(publicKey := publicKey, status := ACTIVE)];
      } else {
        mine := mine + [KeyRow(identifier, publicKey, ACTIVE, None)];
      }
      rows := rows[did := mine];
    }

    method RotatePqcKeyRecord(did: Did, previous: string, successor: string, publicKey: PublicKey)
      modifies this
      ensures rows ==
              old(rows)[did := Rotated(RowsOf(old(rows), did), previous, successor, publicKey)]
    {
      var mine := Retired(RowsOf(rows, did), previous, successor);
      var duplicate := Find(mine, successor);
      if duplicate.Some? {
        mine := mine[duplicate.value := mine[duplicate.value].(status := ACTIVE)];
      } else {
        mine := mine + [KeyRow(successor, publicKey, ACTIVE, None)];
      }
      rows := rows[did := mine];
    }

    method RegisterKey(did: Did, eligible: bool, publicKey: Option<PublicKey>, proved: bool) returns (reply: Reply)
      modifies this
      ensures (rows, reply) == Apply(digest, old(rows), Register(did, eligible, publicKey, proved))
    {
      if !eligible { return Forbidden; }
      if publicKey.None? { return BadRequest; }
      var mine := RowsOf(rows, did);
      var existing := Active(mine);
      var generation := if existing.Some? then GenerationOf(mine[existing.value].identifier) + 1 else 1;
      var identifier := KeyIdentifierFor(digest, did, generation);
      if !proved { return BadRequest; }
      if existing.Some? {
        RotatePqcKeyRecord(did, mine[existing.value].identifier, identifier, publicKey.value);
      } else {
        RegisterPqcKeyRecord(did, identifier, publicKey.value);
      }
      return Done;
    }

    method RevokeKey(actor: Did, admin: bool, named: Option<Did>) returns (reply: Reply)
      modifies this
      ensures (rows, reply) == Apply(digest, old(rows), Revoke(actor, admin, named))
    {
      var target := actor;
      if named.Some? && named.value != actor {
        if !admin { return Forbidden; }
        target := named.value;
      }
      if Active(RowsOf(rows, target)).None? { return NotFound; }
      rows := rows[target := AllRevoked(RowsOf(rows, target))];
      return Done;
    }
  }

  // ---------------------------------------------------------------- when a procedure takes effect

  /** A registration happens for an eligible identity with a proved, well-formed key, and touches its own rows only. */
  lemma RegistrationHappensExactly(digest: Digest, t: Table, did: Did, eligible: bool, publicKey: Option<PublicKey>,
                                   proved: bool)
    ensures var (after, reply) := Apply(digest, t, Register(did, eligible, publicKey, proved));
            && (reply == Done <==> eligible && publicKey.Some? && proved)
            && (reply == Forbidden <==> !eligible)
            && (reply != Done ==> after == t)
            && (forall other | other != did :: RowsOf(after, other) == RowsOf(t, other))
  {
  }

  /**
   * A revocation happens to an active key, by its holder or an administrator, and revokes all rows of that DID only.
   */
  lemma RevocationHappensExactly(digest: Digest, t: Table, actor: Did, admin: bool, named: Option<Did>)
    ensures var (after, reply) := Apply(digest, t, Revoke(actor, admin, named));
            var target := if named.Some? then named.value else actor;
            && (reply == Done <==>
                  && (target == actor || admin)
                  && exists i :: 0 <= i < |RowsOf(t, target)| && RowsOf(t, target)[i].status == ACTIVE)
            && (reply == Forbidden <==> target != actor && !admin)
            && (reply != Done ==> after == t)
            && (reply == Done ==>
                  && |RowsOf(after, target)| == |RowsOf(t, target)|
                  && forall i | 0 <= i < |RowsOf(t, target)| ::
                       RowsOf(after, target)[i] == RowsOf(t, target)[i].(status := REVOKED))
            && (forall other | other != target :: RowsOf(after, other) == RowsOf(t, other))
  {
    var target := if named.Some? then named.value else actor;
    var active := Active(RowsOf(t, target));
    if active.Some? { assert RowsOf(t, target)[active.value].status == ACTIVE; }
  }

  /** An identifier of any other shape counts as generation one. */
  lemma OtherIdentifiersAreGenerationOne(identifier: string)
    requires |identifier| < 8 || identifier[..8] != "pqc-key-" || !IsDigit((identifier[8..] + "-")[0])
    ensures GenerationOf(identifier) == 1
  {
  }

  // ---------------------------------------------------------------- what the rows of a DID say

  /**
   * The simple machine behind the rows of one DID: the key held by each generation, and how many
   * registrations succeeded since the last revocation.
   */
  datatype Ladder = Ladder(keys: seq<PublicKey>, live: nat)

  function Climb(l: Ladder, publicKey: PublicKey): Ladder
    requires l.live <= |l.keys|
  {
    if l.live == 0 && l.keys != [] then Ladder(l.keys[0 := publicKey], 1)
    else if l.live < |l.keys| then l.(live := l.live + 1)
    else Ladder(l.keys + [publicKey], l.live + 1)
  }

  /** The identifier of each generation of one DID. */
  type Names = nat -> string

  ghost predicate Distinct(name: Names) {
    forall g: nat, h: nat :: name(g) == name(h) ==> g == h
  }

  function NamesOf(digest: Digest, did: Did): Names {
    (g: nat) => KeyIdentifierFor(digest, did, g)
  }

  lemma NamesAreDistinct(digest: Digest, did: Did)
    ensures Distinct(NamesOf(digest, did))
  {
    forall g: nat, h: nat | NamesOf(digest, did)(g) == NamesOf(digest, did)(h) ensures g == h {
      IdentifiersDiffer(digest, did, g, h);
    }
  }

  ghost predicate Represents(name: Names, rows: seq<KeyRow>, l: Ladder) {
    && l.live <= |l.keys| == |rows|
    && forall i | 0 <= i < |rows| :: RowIs(name, rows, l, i)
  }

  /** Below the active generation all rows are linked to the next one, above it they are revoked. */
  predicate RowIs(name: Names, rows: seq<KeyRow>, l: Ladder, i: nat)
    requires i < |rows| == |l.keys|
  {
    && rows[i].identifier == name(i + 1)
    && rows[i].publicKey == l.keys[i]
    && (i + 1 < l.live ==> rows[i].status == ROTATED && rows[i].supersededBy == Some(name(i + 2)))
    && (i + 1 == l.live ==> rows[i].status == ACTIVE)
    && (i + 1 > l.live ==> rows[i].status == REVOKED)
  }

  lemma ActiveIsLive(name: Names, rows: seq<KeyRow>, l: Ladder)
    requires Represents(name, rows, l)
    ensures Active(rows) == if l.live == 0 then None else Some(l.live - 1)
    ensures forall i, j | 0 <= i < j < |rows| :: rows[i].status != ACTIVE || rows[j].status != ACTIVE
  {
    forall i | 0 <= i < |rows| ensures rows[i].status == ACTIVE <==> i + 1 == l.live {
      assert RowIs(name, rows, l, i);
    }
    if l.live > 0 { assert rows[l.live - 1].status == ACTIVE; }
  }

  /** The active row's identifier and key are those of the live generation. */
  lemma ActiveKey(name: Names, rows: seq<KeyRow>, l: Ladder)
    requires Represents(name, rows, l) && l.live > 0
    ensures Active(rows) == Some(l.live - 1)
    ensures rows[l.live - 1].publicKey == l.keys[l.live - 1] && rows[l.live - 1].identifier == name(l.live)
  {
    ActiveIsLive(name, rows, l);
    assert RowIs(name, rows, l, l.live - 1);
  }

  ghost predicate InOrder(name: Names, rows: seq<KeyRow>) {
    forall i | 0 <= i < |rows| :: rows[i].identifier == name(i + 1)
  }

  lemma RowsAreInOrder(name: Names, rows: seq<KeyRow>, l: Ladder)
    requires Represents(name, rows, l)
    ensures InOrder(name, rows)
  {
    forall i | 0 <= i < |rows| ensures rows[i].identifier == name(i + 1) {
      assert RowIs(name, rows, l, i);
    }
  }

  lemma FindsGeneration(name: Names, rows: seq<KeyRow>, g: nat)
    requires Distinct(name) && g > 0 && InOrder(name, rows)
    ensures Find(rows, name(g)) == if g <= |rows| then Some(g - 1) else None
  {
    assert g <= |rows| ==> rows[g - 1].identifier == name(g);
  }

  lemma FirstRegistrationClimbs(name: Names, rows: seq<KeyRow>, l: Ladder, publicKey: PublicKey)
    requires Distinct(name) && Represents(name, rows, l) && l.live == 0
    ensures Represents(name, Inserted(rows, name(1), publicKey), Climb(l, publicKey))
  {
    var after, m := Inserted(rows, name(1), publicKey), Climb(l, publicKey);
    RowsAreInOrder(name, rows, l);
    FindsGeneration(name, rows, 1);
    forall i | 0 <= i < |after| ensures RowIs(name, after, m, i) {
      assert i < |rows| ==> RowIs(name, rows, l, i);
    }
  }

  lemma RetiredIsLinked(name: Names, rows: seq<KeyRow>, l: Ladder)
    requires Distinct(name) && Represents(name, rows, l) && l.live > 0
    ensures var retired := Retired(rows, name(l.live), name(l.live + 1));
            forall i | 0 <= i < |rows| ::
              retired[i] == if i + 1 == l.live
                            then rows[i].(status := ROTATED, supersededBy := Some(name(l.live + 1))) else rows[i]
  {
    RowsAreInOrder(name, rows, l);
  }

  lemma RotationWrites(name: Names, retired: seq<KeyRow>, g: nat, publicKey: PublicKey)
    requires Distinct(name) && InOrder(name, retired) && 0 < g <= |retired|
    ensures Reactivated(retired, name(g + 1), publicKey) ==
            if g < |retired| then retired[g := retired[g].(status := ACTIVE)]
            else retired + [KeyRow(name(g + 1), publicKey, ACTIVE, None)]
  {
    FindsGeneration(name, retired, g + 1);
  }

  lemma RotationClimbs(name: Names, rows: seq<KeyRow>, l: Ladder, publicKey: PublicKey)
    requires Distinct(name) && Represents(name, rows, l) && l.live > 0
    ensures Represents(name, Rotated(rows, name(l.live), name(l.live + 1), publicKey), Climb(l, publicKey))
  {
    var retired := Retired(rows, name(l.live), name(l.live + 1));
    RetiredIsLinked(name, rows, l);
    RowsAreInOrder(name, rows, l);
    RotationWrites(name, retired, l.live, publicKey);
    LinkedRowsClimb(name, rows, retired, Reactivated(retired, name(l.live + 1), publicKey), l, publicKey);
  }

  lemma LinkedRowsClimb(name: Names, rows: seq<KeyRow>, retired: seq<KeyRow>, after: seq<KeyRow>, l: Ladder,
                        publicKey: PublicKey)
    requires Represents(name, rows, l) && l.live > 0 && |retired| == |rows|
    requires forall i | 0 <= i < |rows| ::
               retired[i] == if i + 1 == l.live
                             then rows[i].(status := ROTATED, supersededBy := Some(name(l.live + 1))) else rows[i]
    requires after == if l.live < |rows| then retired[l.live := retired[l.live].(status := ACTIVE)]
                      else retired + [KeyRow(name(l.live + 1), publicKey, ACTIVE, None)]
    ensures Represents(name, after, Climb(l, publicKey))
  {
    forall i | 0 <= i < |after| ensures RowIs(name, after, Climb(l, publicKey), i) {
      assert i < |rows| ==> RowIs(name, rows, l, i);
    }
  }

  lemma RegisteredAsFirst(digest: Digest, did: Did, rows: seq<KeyRow>, publicKey: PublicKey)
    requires Active(rows) == None
    ensures Registered(digest, did, rows, publicKey) == Inserted(rows, NamesOf(digest, did)(1), publicKey)
  {
  }

  lemma SuccessorIsNext(digest: Digest, did: Did, g: nat)
    ensures SuccessorOf(digest, did, NamesOf(digest, did)(g)) == NamesOf(digest, did)(g + 1)
  {
    GenerationRoundTrip(digest, did, g);
  }

  lemma RegisteredAsNext(digest: Digest, did: Did, rows: seq<KeyRow>, previous: string, next: string,
                         publicKey: PublicKey)
    requires Active(rows).Some? && rows[Active(rows).value].identifier == previous
    requires SuccessorOf(digest, did, previous) == next
    ensures Registered(digest, did, rows, publicKey) == Rotated(rows, previous, next, publicKey)
  {
  }

  /** One registration moves the machine one step. */
  lemma RegistrationClimbs(digest: Digest, did: Did, rows: seq<KeyRow>, l: Ladder, publicKey: PublicKey)
    requires Represents(NamesOf(digest, did), rows, l)
    ensures Represents(NamesOf(digest, did), Registered(digest, did, rows, publicKey), Climb(l, publicKey))
  {
    var name := NamesOf(digest, did);
    NamesAreDistinct(digest, did);
    ActiveIsLive(name, rows, l);
    if l.live == 0 {
      RegisteredAsFirst(digest, did, rows, publicKey);
      FirstRegistrationClimbs(name, rows, l, publicKey);
    } else {
      ActiveKey(name, rows, l);
      SuccessorIsNext(digest, did, l.live);
      RegisteredAsNext(digest, did, rows, name(l.live), name(l.live + 1), publicKey);
      RotationClimbs(name, rows, l, publicKey);
    }
  }

  lemma RevocationDrops(name: Names, rows: seq<KeyRow>, l: Ladder)
    requires Represents(name, rows, l)
    ensures Represents(name, AllRevoked(rows), l.(live := 0))
  {
    forall i | 0 <= i < |rows| ensures RowIs(name, AllRevoked(rows), l.(live := 0), i) {
      assert RowIs(name, rows, l, i);
    }
  }

  // ---------------------------------------------------------------- runs

  datatype Run = Start | Then(before: Run, call: Call)

  function After(digest: Digest, run: Run): Table {
    match run
    case Start => map[]
    case Then(before, call) => Apply(digest, After(digest, before), call).0
  }

  /** What the calls of a run mean for one DID. */
  function LadderOf(run: Run, did: Did): (l: Ladder)
    ensures l.live <= |l.keys|
  {
    match run
    case Start => Ladder([], 0)
    case Then(before, call) =>
      var l := LadderOf(before, did);
      if Target(call) != did then l
      else if MayRegister(call) then Climb(l, call.publicKey.value)
      else if MayRevoke(call) then l.(live := 0)
      else l
  }

  /** In every run the rows of every DID are those of its ladder. */
  lemma {:induction false} RowsFollowTheLadder(digest: Digest, run: Run, did: Did)
    ensures Represents(NamesOf(digest, did), RowsOf(After(digest, run), did), LadderOf(run, did))
  {
    if run.Then? {
      RowsFollowTheLadder(digest, run.before, did);
      var rows, l := RowsOf(After(digest, run.before), did), LadderOf(run.before, did);
      if Target(run.call) == did {
        if MayRegister(run.call) {
          RegistrationClimbs(digest, did, rows, l, run.call.publicKey.value);
        } else if MayRevoke(run.call) {
          ActiveIsLive(NamesOf(digest, did), rows, l);
          RevocationDrops(NamesOf(digest, did), rows, l);
        }
      }
    }
  }

  lemma AtMostOneActiveKey(digest: Digest, run: Run, did: Did, i: nat, j: nat)
    requires var rows := RowsOf(After(digest, run), did);
             i < j < |rows| && rows[i].status == ACTIVE
    ensures RowsOf(After(digest, run), did)[j].status != ACTIVE
  {
    RowsFollowTheLadder(digest, run, did);
    ActiveIsLive(NamesOf(digest, did), RowsOf(After(digest, run), did), LadderOf(run, did));
  }

  /** The keys whose possession was proved for this DID, in order. */
  function ProvedKeys(run: Run, did: Did): seq<PublicKey> {
    match run
    case Start => []
    case Then(before, call) =>
      ProvedKeys(before, did) + (if Target(call) == did && MayRegister(call) then [call.publicKey.value] else [])
  }

  predicate NeverRevoked(run: Run, did: Did) {
    run.Then? ==> NeverRevoked(run.before, did) && !(MayRevoke(run.call) && Target(run.call) == did)
  }

  lemma {:induction false} LadderWithoutRevocation(run: Run, did: Did)
    requires NeverRevoked(run, did)
    ensures LadderOf(run, did) == Ladder(ProvedKeys(run, did), |ProvedKeys(run, did)|)
  {
    if run.Then? {
      LadderWithoutRevocation(run.before, did);
      if !(Target(run.call) == did && MayRegister(run.call)) {
        assert ProvedKeys(run, did) == ProvedKeys(run.before, did) + [];
      }
    }
  }

  /**
   * Without revocation the rows are the proved keys in order: the last one is ACTIVE, its generation is the number of
   * registrations, and each earlier row is ROTATED and names the next generation.
   */
  lemma RotationChain(digest: Digest, run: Run, did: Did)
    requires NeverRevoked(run, did)
    ensures var rows, keys := RowsOf(After(digest, run), did), ProvedKeys(run, did);
            && |rows| == |keys|
            && Active(rows) == (if keys == [] then None else Some(|keys| - 1))
            && (keys != [] ==>
                rows[|keys| - 1].publicKey == keys[|keys| - 1] && GenerationOf(rows[|keys| - 1].identifier) == |keys|)
            && (forall i | 0 <= i < |rows| - 1 ::
                  && rows[i].status == ROTATED && rows[i].publicKey == keys[i]
                  && rows[i].supersededBy == Some(rows[i + 1].identifier))
  {
    var rows, keys, l := RowsOf(After(digest, run), did), ProvedKeys(run, did), LadderOf(run, did);
    RowsFollowTheLadder(digest, run, did);
    LadderWithoutRevocation(run, did);
    ActiveIsLive(NamesOf(digest, did), rows, l);
    if keys != [] {
      assert RowIs(NamesOf(digest, did), rows, l, |keys| - 1);
      GenerationRoundTrip(digest, did, |keys|);
    }
    forall i | 0 <= i < |rows| - 1
      ensures rows[i].status == ROTATED && rows[i].publicKey == keys[i]
              && rows[i].supersededBy == Some(rows[i + 1].identifier)
    {
      assert RowIs(NamesOf(digest, did), rows, l, i) && RowIs(NamesOf(digest, did), rows, l, i + 1);
    }
  }

  // ---------------------------------------------------------------- when the proved key becomes the active one

  /** No key is active, or the next generation has no row yet, or its row holds this very key. */
  predicate NextGenerationIsFree(digest: Digest, did: Did, rows: seq<KeyRow>, publicKey: PublicKey) {
    match Active(rows)
    case None => true
    case Some(i) =>
      var next := Find(rows, KeyIdentifierFor(digest, did, GenerationOf(rows[i].identifier) + 1));
      next.None? || rows[next.value].publicKey == publicKey
  }

  lemma FreeOnTheLadder(digest: Digest, did: Did, rows: seq<KeyRow>, l: Ladder, publicKey: PublicKey)
    requires Represents(NamesOf(digest, did), rows, l)
    ensures NextGenerationIsFree(digest, did, rows, publicKey) <==>
            l.live == 0 || l.live == |rows| || l.keys[l.live] == publicKey
  {
    var name := NamesOf(digest, did);
    ActiveIsLive(name, rows, l);
    if l.live > 0 {
      ActiveKey(name, rows, l);
      GenerationRoundTrip(digest, did, l.live);
      NamesAreDistinct(digest, did);
      RowsAreInOrder(name, rows, l);
      FindsGeneration(name, rows, l.live + 1);
      assert l.live < |rows| ==> RowIs(name, rows, l, l.live);
    }
  }

  lemma ClimbReaches(l: Ladder, publicKey: PublicKey)
    requires l.live <= |l.keys|
    ensures var m := Climb(l, publicKey);
            && 0 < m.live <= |m.keys|
            && (m.keys[m.live - 1] == publicKey <==> l.live == 0 || l.live == |l.keys| || l.keys[l.live] == publicKey)
  {
  }

  lemma ProvedKeyOnTheLadder(digest: Digest, did: Did, rows: seq<KeyRow>, l: Ladder, publicKey: PublicKey)
    requires Represents(NamesOf(digest, did), rows, l)
    ensures var after := Registered(digest, did, rows, publicKey);
            && Active(after).Some?
            && (after[Active(after).value].publicKey == publicKey <==>
                NextGenerationIsFree(digest, did, rows, publicKey))
  {
    var m := Climb(l, publicKey);
    RegistrationClimbs(digest, did, rows, l, publicKey);
    FreeOnTheLadder(digest, did, rows, l, publicKey);
    ClimbReaches(l, publicKey);
    ActiveKey(NamesOf(digest, did), Registered(digest, did, rows, publicKey), m);
  }

  lemma RegistrationReplacesRows(digest: Digest, t: Table, call: Call)
    requires MayRegister(call)
    ensures RowsOf(Apply(digest, t, call).0, call.did) ==
            Registered(digest, call.did, RowsOf(t, call.did), call.publicKey.value)
  {
  }

  /** After a registration some key is active; it is the proved one exactly when the next generation was free. */
  lemma ProvedKeyBecomesActive(digest: Digest, run: Run, call: Call)
    requires MayRegister(call)
    ensures var before := RowsOf(After(digest, run), call.did);
            var after := RowsOf(Apply(digest, After(digest, run), call).0, call.did);
            && Active(after).Some?
            && (after[Active(after).value].publicKey == call.publicKey.value <==>
                NextGenerationIsFree(digest, call.did, before, call.publicKey.value))
  {
    var t := After(digest, run);
    RowsFollowTheLadder(digest, run, call.did);
    ProvedKeyOnTheLadder(digest, call.did, RowsOf(t, call.did), LadderOf(run, call.did), call.publicKey.value);
    RegistrationReplacesRows(digest, t, call);
  }

  /** Two keys, a revocation, two more keys: the second rotation brings the second key back to life. */
  lemma OldKeyComesBack(digest: Digest, did: Did)
    ensures var revoked := Then(Then(Then(Start, Register(did, true, Some("k1"), true)),
                                     Register(did, true, Some("k2"), true)), Revoke(did, false, None));
            var run := Then(Then(revoked, Register(did, true, Some("k3"), true)),
                            Register(did, true, Some("k4"), true));
            var rows := RowsOf(After(digest, run), did);
            Active(rows).Some? && rows[Active(rows).value].publicKey == "k2"
  {
    var r1 := Then(Start, Register(did, true, Some("k1"), true));
    var r2 := Then(r1, Register(did, true, Some("k2"), true));
    var r3 := Then(r2, Revoke(did, false, None));
    var r4 := Then(r3, Register(did, true, Some("k3"), true));
    var r5 := Then(r4, Register(did, true, Some("k4"), true));
    assert LadderOf(r1, did) == Ladder([] + ["k1"], 1);
    assert LadderOf(r2, did) == Ladder(["k1"] + ["k2"], 2);
    assert LadderOf(r3, did) == Ladder(["k1", "k2"], 0);
    assert LadderOf(r4, did) == Ladder(["k1", "k2"][0 := "k3"], 1);
    assert LadderOf(r5, did) == Ladder(["k3", "k2"], 2);
    RowsFollowTheLadder(digest, r5, did);
    ActiveKey(NamesOf(digest, did), RowsOf(After(digest, r5), did), LadderOf(r5, did));
  }
}
