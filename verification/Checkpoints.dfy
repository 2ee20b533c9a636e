/** The trusted checkpoint log with recovery epochs (src/plaik_core/integrity.py). */
module Checkpoints {
  import opened Prelude
  import opened HashChain

  type InstallationId = string
  type OperationId = string

  datatype Journal = Audit | Operations

  /** `version` is the record's format version; version 1 records predate recovery epochs. */
  datatype Body = Body(
    version: nat, installation: InstallationId, journal: Journal, eventCount: nat, headHash: Hash,
    recordedAt: int, epoch: nat, operation: Option<OperationId>, actor: Option<string>,
    manifest: Option<Hash>)

  type Record = Link<Body>

  /** What the HMAC covers: a version 1 record signs none of the recovery fields. */
  function Canonical(b: Body): Body {
    if b.version >= 2 then b else b.(epoch := 0, operation := None, actor := None, manifest := None)
  }

  function Signing(sign: Signer<Body>): Signer<Body> {
    (n: nat, b: Body, p: Hash) => sign(n, Canonical(b), p)
  }

  // ---------------------------------------------------------------------------------------
  // Reading the log
  // ---------------------------------------------------------------------------------------

  function Latest(rs: seq<Record>, inst: InstallationId, journal: Journal): Option<Record> {
    if rs == [] then None
    else
      var r := rs[|rs| - 1];
      if r.body.installation == inst && r.body.journal == journal then Some(r)
      else Latest(rs[..|rs| - 1], inst, journal)
  }

  /** The highest epoch among the records of one installation, 0 when it has none. */
  function MaxEpoch(rs: seq<Record>, inst: InstallationId): nat {
    if rs == [] then 0
    else
      var r, before := rs[|rs| - 1], MaxEpoch(rs[..|rs| - 1], inst);
      if r.body.installation == inst && r.body.epoch > before then r.body.epoch else before
  }

  /** The current epoch, or `None` where the reader raises "journal recovery epochs disagree". */
  function CurrentEpoch(rs: seq<Record>, inst: InstallationId): Option<nat> {
    var audit, operations := Latest(rs, inst, Audit), Latest(rs, inst, Operations);
    if audit.Some? && operations.Some? && audit.value.body.epoch != operations.value.body.epoch then None
    else Some(MaxEpoch(rs, inst))
  }

  /** The recovery records of one (installation, operation), in log order. */
  function GroupOf(rs: seq<Record>, inst: InstallationId, op: OperationId): seq<Record> {
    if rs == [] then []
    else
      var r := rs[|rs| - 1];
      GroupOf(rs[..|rs| - 1], inst, op) +
      (if r.body.installation == inst && r.body.operation == Some(op) then [r] else [])
  }

  predicate MetadataOk(b: Body) {
    && (b.version < 2 ==> b.epoch == 0 && b.operation.None? && b.actor.None? && b.manifest.None?)
    && (b.operation.None? ==> b.actor.None? && b.manifest.None?)
    && (b.operation.Some? ==> b.epoch >= 1 && b.actor.Some? && b.manifest.Some?)
  }

  /** Nothing, or one audit and one operations record of the same evidence on adjacent lines. */
  predicate GroupOk(g: seq<Record>) {
    g == [] ||
    (&& |g| == 2 && g[0].body.journal != g[1].body.journal
     && g[0].body.epoch == g[1].body.epoch && g[0].body.actor == g[1].body.actor
     && g[0].body.manifest == g[1].body.manifest
     && (g[1].sequence == g[0].sequence + 1 || g[0].sequence == g[1].sequence + 1))
  }

  predicate EpochsNeverDrop(rs: seq<Record>) {
    forall i, j :: 0 <= i < j < |rs| && rs[i].body.installation == rs[j].body.installation ==>
      rs[i].body.epoch <= rs[j].body.epoch
  }

  predicate OneOperationPerEpoch(rs: seq<Record>) {
    forall i, j :: 0 <= i < j < |rs| && rs[i].body.installation == rs[j].body.installation
                   && rs[i].body.epoch == rs[j].body.epoch
                   && rs[i].body.operation.Some? && rs[j].body.operation.Some? ==>
      rs[i].body.operation == rs[j].body.operation
  }

  predicate EachValid(rs: seq<Record>) {
    && (forall k :: 0 <= k < |rs| ==> MetadataOk(rs[k].body))
    && EpochsNeverDrop(rs)
    && OneOperationPerEpoch(rs)
  }

  ghost predicate GroupsOk(rs: seq<Record>) {
    forall inst, op {:trigger GroupOf(rs, inst, op)} :: GroupOk(GroupOf(rs, inst, op))
  }

  /** What `_validate_checkpoint_records` demands of the whole log. */
  ghost predicate LogValid(rs: seq<Record>) {
    EachValid(rs) && GroupsOk(rs)
  }

  ghost predicate Accepted(sign: Signer<Body>, lines: seq<Line<Body>>) {
    AllWhole(lines) && Chained(Signing(sign), Links(lines)) && LogValid(Links(lines))
  }

  // ---------------------------------------------------------------------------------------
  // Facts about the lookups
  // ---------------------------------------------------------------------------------------

  lemma {:induction false} LatestIs(rs: seq<Record>, inst: InstallationId, journal: Journal) returns (at: int)
    ensures Latest(rs, inst, journal).None? ==>
              forall i :: 0 <= i < |rs| && rs[i].body.installation == inst ==> rs[i].body.journal != journal
    ensures Latest(rs, inst, journal).Some? ==>
              && 0 <= at < |rs| && rs[at] == Latest(rs, inst, journal).value
              && rs[at].body.installation == inst && rs[at].body.journal == journal
              && forall i :: at < i < |rs| && rs[i].body.installation == inst ==> rs[i].body.journal != journal
  {
    if rs == [] {
      at := -1;
    } else if rs[|rs| - 1].body.installation == inst && rs[|rs| - 1].body.journal == journal {
      at := |rs| - 1;
    } else {
      at := LatestIs(rs[..|rs| - 1], inst, journal);
    }
  }

  lemma {:induction false} MaxEpochIs(rs: seq<Record>, inst: InstallationId)
    ensures forall i :: 0 <= i < |rs| && rs[i].body.installation == inst ==> rs[i].body.epoch <= MaxEpoch(rs, inst)
    ensures MaxEpoch(rs, inst) == 0 ||
            exists i :: 0 <= i < |rs| && rs[i].body.installation == inst && rs[i].body.epoch == MaxEpoch(rs, inst)
  {
    if rs != [] {
      var init := rs[..|rs| - 1];
      MaxEpochIs(init, inst);
      if MaxEpoch(init, inst) != 0 {
        var i :| 0 <= i < |init| && init[i].body.installation == inst && init[i].body.epoch == MaxEpoch(init, inst);
        assert rs[i].body.installation == inst && rs[i].body.epoch == MaxEpoch(init, inst);
      }
      if MaxEpoch(rs, inst) != MaxEpoch(init, inst) {
        assert rs[|rs| - 1].body.installation == inst && rs[|rs| - 1].body.epoch == MaxEpoch(rs, inst);
      }
    }
  }

  lemma {:induction false} GroupMembers(rs: seq<Record>, inst: InstallationId, op: OperationId)
    ensures forall r :: r in GroupOf(rs, inst, op) <==>
              (r in rs && r.body.installation == inst && r.body.operation == Some(op))
  {
    if rs != [] {
      GroupMembers(rs[..|rs| - 1], inst, op);
      assert rs == rs[..|rs| - 1] + [rs[|rs| - 1]];
    }
  }

  lemma GroupAppend(rs: seq<Record>, r: Record, inst: InstallationId, op: OperationId)
    ensures GroupOf(rs + [r], inst, op) == GroupOf(rs, inst, op) +
              (if r.body.installation == inst && r.body.operation == Some(op) then [r] else [])
  {
    assert (rs + [r])[..|rs|] == rs;
  }

  lemma LatestAppend(rs: seq<Record>, r: Record, inst: InstallationId, journal: Journal)
    ensures Latest(rs + [r], inst, journal) ==
            (if r.body.installation == inst && r.body.journal == journal then Some(r) else Latest(rs, inst, journal))
    ensures MaxEpoch(rs + [r], inst) ==
            (if r.body.installation == inst && r.body.epoch > MaxEpoch(rs, inst) then r.body.epoch else MaxEpoch(rs, inst))
  {
    assert (rs + [r])[..|rs|] == rs;
  }

  // ---------------------------------------------------------------------------------------
  // Closure: whatever the reader accepts, the writers extend to something it accepts
  // ---------------------------------------------------------------------------------------

  lemma EachValidAppend(rs: seq<Record>, r: Record)
    requires EachValid(rs) && MetadataOk(r.body)
    requires forall i :: 0 <= i < |rs| && rs[i].body.installation == r.body.installation ==>
               rs[i].body.epoch <= r.body.epoch
    requires r.body.operation.Some? ==>
               forall i :: 0 <= i < |rs| && rs[i].body.installation == r.body.installation
                           && rs[i].body.epoch == r.body.epoch && rs[i].body.operation.Some? ==>
                 rs[i].body.operation == r.body.operation
    ensures EachValid(rs + [r])
  {
  }

  /** The body an ordinary checkpoint writes. */
  function CheckpointBody(rs: seq<Record>, inst: InstallationId, journal: Journal, count: nat, head: Hash, now: int): Body {
    Body(2, inst, journal, count, head, now, MaxEpoch(rs, inst), None, None, None)
  }

  lemma CheckpointKeepsValid(sign: Signer<Body>, rs: seq<Record>, inst: InstallationId, journal: Journal,
                             count: nat, head: Hash, now: int)
    requires Chained(Signing(sign), rs) && LogValid(rs)
    ensures var next := rs + [NextLink(Signing(sign), rs, CheckpointBody(rs, inst, journal, count, head, now))];
            Chained(Signing(sign), next) && LogValid(next)
  {
    var r := NextLink(Signing(sign), rs, CheckpointBody(rs, inst, journal, count, head, now));
    AppendChained(Signing(sign), rs, r.body);
    MaxEpochIs(rs, inst);
    EachValidAppend(rs, r);
    forall i, op ensures GroupOk(GroupOf(rs + [r], i, op)) {
      GroupAppend(rs, r, i, op);
      assert GroupOk(GroupOf(rs, i, op));
    }
  }

  /** The two bodies a recovery writes, audit first, into the next epoch. */
  function RecoveryBody(rs: seq<Record>, inst: InstallationId, journal: Journal, head: (nat, Hash),
                        op: OperationId, actor: string, manifest: Hash, now: int): Body {
    Body(2, inst, journal, head.0, head.1, now, MaxEpoch(rs, inst) + 1, Some(op), Some(actor), Some(manifest))
  }

  function RecoveryPair(sign: Signer<Body>, rs: seq<Record>, inst: InstallationId, audit: (nat, Hash),
                        operations: (nat, Hash), op: OperationId, actor: string, manifest: Hash, now: int)
    : (pair: (Record, Record))
  {
    var first := NextLink(Signing(sign), rs, RecoveryBody(rs, inst, Audit, audit, op, actor, manifest, now));
    var second := NextLink(Signing(sign), rs + [first], RecoveryBody(rs, inst, Operations, operations, op, actor, manifest, now));
    (first, second)
  }

  lemma RecoveryKeepsValid(sign: Signer<Body>, rs: seq<Record>, inst: InstallationId, audit: (nat, Hash),
                           operations: (nat, Hash), op: OperationId, actor: string, manifest: Hash, now: int)
    requires Chained(Signing(sign), rs) && LogValid(rs) && GroupOf(rs, inst, op) == []
    ensures var (first, second) := RecoveryPair(sign, rs, inst, audit, operations, op, actor, manifest, now);
            Chained(Signing(sign), rs + [first, second]) && LogValid(rs + [first, second])
  {
    var (first, second) := RecoveryPair(sign, rs, inst, audit, operations, op, actor, manifest, now);
    var s := Signing(sign);
    AppendChained(s, rs, first.body);
    AppendChained(s, rs + [first], second.body);
    var next := rs + [first, second];
    assert next == rs + [first] + [second];
    MaxEpochIs(rs, inst);
    EachValidAppend(rs, first);
    LatestAppend(rs, first, inst, Audit);
    EachValidAppend(rs + [first], second);
    forall i, o ensures GroupOk(GroupOf(next, i, o)) {
      GroupAppend(rs, first, i, o);
      GroupAppend(rs + [first], second, i, o);
      assert GroupOk(GroupOf(rs, i, o));
    }
  }

  /** A crash that lets only the first of the two recovery records through fails closed: the
      reader rejects the log, so one restored journal is never accepted alone. */
  lemma HalfRecoveryRejected(sign: Signer<Body>, rs: seq<Record>, inst: InstallationId, audit: (nat, Hash),
                             operations: (nat, Hash), op: OperationId, actor: string, manifest: Hash, now: int)
    requires GroupOf(rs, inst, op) == []
    ensures !LogValid(rs + [RecoveryPair(sign, rs, inst, audit, operations, op, actor, manifest, now).0])
  {
    var first := RecoveryPair(sign, rs, inst, audit, operations, op, actor, manifest, now).0;
    GroupAppend(rs, first, inst, op);
    assert !GroupOk(GroupOf(rs + [first], inst, op));
  }

  // ---------------------------------------------------------------------------------------
  // What every log built from nothing satisfies beyond what the reader checks
  // ---------------------------------------------------------------------------------------

  /** The last record of either journal sits in the newest epoch of its installation. */
  ghost predicate EpochsAgree(rs: seq<Record>) {
    forall inst, journal {:trigger Latest(rs, inst, journal)} ::
      Latest(rs, inst, journal).Some? ==> Latest(rs, inst, journal).value.body.epoch == MaxEpoch(rs, inst)
  }

  predicate CountsIncrease(rs: seq<Record>) {
    forall i, j :: 0 <= i < j < |rs| && rs[i].body.installation == rs[j].body.installation
                   && rs[i].body.journal == rs[j].body.journal && rs[i].body.epoch == rs[j].body.epoch ==>
      rs[i].body.eventCount < rs[j].body.eventCount
  }

  predicate SameRecovery(a: Body, b: Body) {
    && a.installation == b.installation && a.epoch == b.epoch && a.operation == b.operation
    && a.actor == b.actor && a.manifest == b.manifest && a.recordedAt == b.recordedAt
  }

  predicate PairedAt(rs: seq<Record>, i: nat)
    requires i < |rs|
  {
    rs[i].body.operation.Some? ==>
      match rs[i].body.journal
      case Audit => i + 1 < |rs| && rs[i + 1].body.journal == Operations && SameRecovery(rs[i].body, rs[i + 1].body)
      case Operations => i > 0 && rs[i - 1].body.journal == Audit && SameRecovery(rs[i - 1].body, rs[i].body)
  }

  /** Recovery records come as contiguous audit/operations pairs. */
  predicate Paired(rs: seq<Record>) {
    forall i :: 0 <= i < |rs| ==> PairedAt(rs, i)
  }

  ghost predicate Built(rs: seq<Record>) {
    LogValid(rs) && EpochsAgree(rs) && CountsIncrease(rs) && Paired(rs)
  }

  /** No built log ever reaches "journal recovery epochs disagree". */
  lemma BuiltEpochsNeverDisagree(rs: seq<Record>, inst: InstallationId)
    requires Built(rs)
    ensures CurrentEpoch(rs, inst) == Some(MaxEpoch(rs, inst))
  {
  }

  lemma CheckpointKeepsBuilt(sign: Signer<Body>, rs: seq<Record>, inst: InstallationId, journal: Journal,
                             count: nat, head: Hash, now: int)
    requires Chained(Signing(sign), rs) && Built(rs)
    requires Latest(rs, inst, journal).Some? ==> Latest(rs, inst, journal).value.body.eventCount < count
    ensures Built(rs + [NextLink(Signing(sign), rs, CheckpointBody(rs, inst, journal, count, head, now))])
  {
    var r := NextLink(Signing(sign), rs, CheckpointBody(rs, inst, journal, count, head, now));
    var next := rs + [r];
    CheckpointKeepsValid(sign, rs, inst, journal, count, head, now);
    forall i, j ensures Latest(next, i, j).Some? ==> Latest(next, i, j).value.body.epoch == MaxEpoch(next, i) {
      LatestAppend(rs, r, i, j);
    }
    var at := LatestIs(rs, inst, journal);
    forall i, j | 0 <= i < j < |next| && next[i].body.installation == next[j].body.installation
                  && next[i].body.journal == next[j].body.journal && next[i].body.epoch == next[j].body.epoch
      ensures next[i].body.eventCount < next[j].body.eventCount
    {
      if j == |rs| {
        assert i <= at && rs[at] == Latest(rs, inst, journal).value;
      }
    }
    forall i | 0 <= i < |next| ensures PairedAt(next, i) {
      assert i < |rs| ==> PairedAt(rs, i);
    }
  }

  lemma RecoveryKeepsAgreement(sign: Signer<Body>, rs: seq<Record>, inst: InstallationId, audit: (nat, Hash),
                               operations: (nat, Hash), op: OperationId, actor: string, manifest: Hash, now: int)
    requires EpochsAgree(rs)
    ensures var (first, second) := RecoveryPair(sign, rs, inst, audit, operations, op, actor, manifest, now);
            && EpochsAgree(rs + [first, second])
            && MaxEpoch(rs + [first, second], inst) == MaxEpoch(rs, inst) + 1
            && Latest(rs + [first, second], inst, Audit) == Some(first)
            && Latest(rs + [first, second], inst, Operations) == Some(second)
  {
    var (first, second) := RecoveryPair(sign, rs, inst, audit, operations, op, actor, manifest, now);
    var next := rs + [first, second];
    assert next == rs + [first] + [second];
    forall i, j
      ensures Latest(next, i, j).Some? ==> Latest(next, i, j).value.body.epoch == MaxEpoch(next, i)
      ensures i == inst ==> MaxEpoch(next, i) == MaxEpoch(rs, i) + 1
      ensures i == inst ==> Latest(next, i, j) == Some(if j == Audit then first else second)
    {
      LatestAppend(rs, first, i, j);
      LatestAppend(rs + [first], second, i, j);
    }
    assert Latest(next, inst, Audit) == Some(first);
  }

  lemma RecoveryKeepsPairs(sign: Signer<Body>, rs: seq<Record>, inst: InstallationId, audit: (nat, Hash),
                           operations: (nat, Hash), op: OperationId, actor: string, manifest: Hash, now: int)
    requires CountsIncrease(rs) && Paired(rs) && EpochsNeverDrop(rs)
    ensures var (first, second) := RecoveryPair(sign, rs, inst, audit, operations, op, actor, manifest, now);
            CountsIncrease(rs + [first, second]) && Paired(rs + [first, second])
  {
    var (first, second) := RecoveryPair(sign, rs, inst, audit, operations, op, actor, manifest, now);
    var next := rs + [first, second];
    MaxEpochIs(rs, inst);
    LatestAppend(rs, first, inst, Audit);
    forall i | 0 <= i < |next| ensures PairedAt(next, i) {
      assert i < |rs| ==> PairedAt(rs, i);
    }
  }

  lemma RecoveryKeepsBuilt(sign: Signer<Body>, rs: seq<Record>, inst: InstallationId, audit: (nat, Hash),
                           operations: (nat, Hash), op: OperationId, actor: string, manifest: Hash, now: int)
    requires Chained(Signing(sign), rs) && Built(rs) && GroupOf(rs, inst, op) == []
    ensures var (first, second) := RecoveryPair(sign, rs, inst, audit, operations, op, actor, manifest, now);
            Built(rs + [first, second]) && MaxEpoch(rs + [first, second], inst) == MaxEpoch(rs, inst) + 1
  {
    RecoveryKeepsValid(sign, rs, inst, audit, operations, op, actor, manifest, now);
    RecoveryKeepsAgreement(sign, rs, inst, audit, operations, op, actor, manifest, now);
    RecoveryKeepsPairs(sign, rs, inst, audit, operations, op, actor, manifest, now);
  }

  // ---------------------------------------------------------------------------------------
  // The validating reader and the writers
  // ---------------------------------------------------------------------------------------

  type Epochs = map<InstallationId, nat>
  type EpochOperations = map<(InstallationId, nat), OperationId>
  type Groups = map<(InstallationId, OperationId), seq<Record>>

  /** `latest` holds the epoch of the last record of each installation seen so far. */
  ghost predicate TracksEpochs(rs: seq<Record>, latest: Epochs) {
    && (forall i :: 0 <= i < |rs| ==> rs[i].body.installation in latest
                                      && rs[i].body.epoch <= latest[rs[i].body.installation])
    && (forall inst :: inst in latest ==>
          exists i :: 0 <= i < |rs| && rs[i].body.installation == inst && rs[i].body.epoch == latest[inst])
  }

  ghost predicate TracksOperations(rs: seq<Record>, operations: EpochOperations) {
    && (forall i :: 0 <= i < |rs| && rs[i].body.operation.Some? ==>
          && (rs[i].body.installation, rs[i].body.epoch) in operations
          && operations[(rs[i].body.installation, rs[i].body.epoch)] == rs[i].body.operation.value)
    && (forall key :: key in operations ==>
          exists i :: 0 <= i < |rs| && rs[i].body.operation == Some(operations[key])
                      && rs[i].body.installation == key.0 && rs[i].body.epoch == key.1)
  }

  ghost predicate TracksGroups(rs: seq<Record>, groups: Groups) {
    forall inst, op {:trigger GroupOf(rs, inst, op)} ::
      GroupOf(rs, inst, op) == if (inst, op) in groups then groups[(inst, op)] else []
  }

  /** One record against the dictionaries of the records before it. */
  predicate Admits(latest: Epochs, operations: EpochOperations, b: Body) {
    && MetadataOk(b)
    && (b.installation in latest ==> latest[b.installation] <= b.epoch)
    && (b.operation.Some? && (b.installation, b.epoch) in operations ==>
          operations[(b.installation, b.epoch)] == b.operation.value)
  }

  lemma AdmittedIfValid(rs: seq<Record>, r: Record, latest: Epochs, operations: EpochOperations)
    requires TracksEpochs(rs, latest) && TracksOperations(rs, operations) && EachValid(rs + [r])
    ensures Admits(latest, operations, r.body)
  {
    var next := rs + [r];
    assert next[|rs|] == r;
    if r.body.installation in latest {
      var i :| 0 <= i < |rs| && rs[i].body.installation == r.body.installation
               && rs[i].body.epoch == latest[r.body.installation];
      assert next[i] == rs[i];
    }
    var key := (r.body.installation, r.body.epoch);
    if r.body.operation.Some? && key in operations {
      var i :| 0 <= i < |rs| && rs[i].body.operation == Some(operations[key])
               && rs[i].body.installation == key.0 && rs[i].body.epoch == key.1;
      assert next[i] == rs[i];
    }
  }

  lemma AdmittedExactly(rs: seq<Record>, r: Record, latest: Epochs, operations: EpochOperations)
    requires EachValid(rs) && TracksEpochs(rs, latest) && TracksOperations(rs, operations)
    ensures EachValid(rs + [r]) <==> Admits(latest, operations, r.body)
  {
    if EachValid(rs + [r]) {
      AdmittedIfValid(rs, r, latest, operations);
    } else if Admits(latest, operations, r.body) {
      EachValidAppend(rs, r);
    }
  }

  lemma EachValidPrefix(rs: seq<Record>, k: nat)
    requires k <= |rs| && EachValid(rs)
    ensures EachValid(rs[..k])
  {
  }

  lemma TrackEpoch(rs: seq<Record>, r: Record, latest: Epochs)
    requires EachValid(rs + [r]) && TracksEpochs(rs, latest)
    ensures TracksEpochs(rs + [r], latest[r.body.installation := r.body.epoch])
  {
    var next := rs + [r];
    var latest' := latest[r.body.installation := r.body.epoch];
    assert next[|rs|] == r;
    forall inst | inst in latest'
      ensures exists i :: 0 <= i < |next| && next[i].body.installation == inst && next[i].body.epoch == latest'[inst]
    {
      if inst == r.body.installation {
        assert next[|rs|].body.epoch == latest'[inst];
      } else {
        var i :| 0 <= i < |rs| && rs[i].body.installation == inst && rs[i].body.epoch == latest[inst];
        assert next[i] == rs[i];
      }
    }
  }

  lemma TrackGroup(rs: seq<Record>, r: Record, groups: Groups)
    requires TracksGroups(rs, groups)
    ensures r.body.operation.None? ==> TracksGroups(rs + [r], groups)
    ensures r.body.operation.Some? ==>
              var key := (r.body.installation, r.body.operation.value);
              TracksGroups(rs + [r], groups[key := (if key in groups then groups[key] else []) + [r]])
  {
    forall inst, op ensures GroupOf(rs + [r], inst, op) == GroupOf(rs, inst, op) +
        (if r.body.installation == inst && r.body.operation == Some(op) then [r] else [])
    {
      GroupAppend(rs, r, inst, op);
    }
  }

  lemma TrackOperation(rs: seq<Record>, r: Record, operations: EpochOperations)
    requires EachValid(rs + [r]) && TracksOperations(rs, operations)
    ensures r.body.operation.None? ==> TracksOperations(rs + [r], operations)
    ensures r.body.operation.Some? ==>
              TracksOperations(rs + [r], operations[(r.body.installation, r.body.epoch) := r.body.operation.value])
  {
    var next := rs + [r];
    var operations' := if r.body.operation.None? then operations
                       else operations[(r.body.installation, r.body.epoch) := r.body.operation.value];
    assert next[|rs|] == r;
    forall key | key in operations'
      ensures exists i :: 0 <= i < |next| && next[i].body.operation == Some(operations'[key])
                          && next[i].body.installation == key.0 && next[i].body.epoch == key.1
    {
      if r.body.operation.Some? && key == (r.body.installation, r.body.epoch) {
        assert next[|rs|].body.operation == Some(operations'[key]);
      } else {
        var i :| 0 <= i < |rs| && rs[i].body.operation == Some(operations[key])
                 && rs[i].body.installation == key.0 && rs[i].body.epoch == key.1;
        assert next[i] == rs[i];
      }
    }
    forall i | 0 <= i < |next| && next[i].body.operation.Some?
      ensures (next[i].body.installation, next[i].body.epoch) in operations'
      ensures operations'[(next[i].body.installation, next[i].body.epoch)] == next[i].body.operation.value
    {
      if i < |rs| {
        assert next[i] == rs[i];
      }
    }
  }

  /** The dictionary pass of the reader decides exactly `LogValid`. */
  method ValidateRecords(rs: seq<Record>) returns (ok: bool)
    ensures ok <==> LogValid(rs)
  {
    var groups: Groups := map[];
    var latest: Epochs := map[];
    var operations: EpochOperations := map[];
    for k := 0 to |rs|
      invariant EachValid(rs[..k])
      invariant TracksEpochs(rs[..k], latest) && TracksOperations(rs[..k], operations) && TracksGroups(rs[..k], groups)
    {
      var r := rs[k];
      assert rs[..k + 1] == rs[..k] + [r];
      AdmittedExactly(rs[..k], r, latest, operations);
      if !Admits(latest, operations, r.body) {
        if EachValid(rs) {
          EachValidPrefix(rs, k + 1);
        }
        return false;
      }
      TrackEpoch(rs[..k], r, latest);
      TrackOperation(rs[..k], r, operations);
      TrackGroup(rs[..k], r, groups);
      latest := latest[r.body.installation := r.body.epoch];
      if r.body.operation.Some? {
        var op := r.body.operation.value;
        var key := (r.body.installation, op);
        operations := operations[(r.body.installation, r.body.epoch) := op];
        groups := groups[key := (if key in groups then groups[key] else []) + [r]];
      }
    }
    assert rs[..|rs|] == rs;
    var keys := groups.Keys;
    while keys != {}
      invariant keys <= groups.Keys
      invariant forall key :: key in groups && key !in keys ==> GroupOk(groups[key])
      decreases keys
    {
      var key :| key in keys;
      if !GroupOk(groups[key]) {
        assert GroupOf(rs, key.0, key.1) == groups[(key.0, key.1)];
        return false;
      }
      keys := keys - {key};
    }
    return true;
  }

  function ByJournal(g: seq<Record>, journal: Journal): Record
    requires g != []
  {
    if |g| > 1 && g[1].body.journal == journal then g[1] else g[0]
  }

  class FileCheckpointStore {
    var lines: seq<Line<Body>>
    const sign: Signer<Body>

    ghost predicate Valid()
      reads this
    {
      Accepted(sign, lines) && Built(Links(lines))
    }

    ghost function Log(): seq<Record>
      reads this
      requires Valid()
    {
      Links(lines)
    }

    constructor (sign: Signer<Body>)
      ensures this.sign == sign && Valid() && Log() == []
    {
      this.sign := sign;
      lines := [];
    }

    /** Re-read the file; succeeds exactly on an accepted log. */
    method ReadAndVerify() returns (r: Option<seq<Record>>)
      ensures r.Some? <==> Accepted(sign, lines)
      ensures r.Some? ==> r.value == Links(lines)
    {
      var records: seq<Record> := [];
      var previousHash := GENESIS_HASH;
      for k := 0 to |lines|
        invariant AllWhole(lines[..k]) && records == Links(lines[..k])
        invariant Chained(Signing(sign), records) && previousHash == Head(records)
      {
        assert lines[..k + 1] == lines[..k] + [lines[k]];
        assert lines[..k + 1][..k] == lines[..k];
        if lines[k].Torn? {
          return None;
        }
        var r := lines[k].link;
        OnlyNextLinkExtends(Signing(sign), records, r);
        if r.sequence != k + 1 || r.previousHash != previousHash
           || r.eventHash != sign(r.sequence, Canonical(r.body), r.previousHash) {
          BrokenPrefix(sign, lines, k + 1);
          return None;
        }
        previousHash := r.eventHash;
        records := records + [r];
      }
      assert lines[..|lines|] == lines;
      var ok := ValidateRecords(records);
      return if ok then Some(records) else None;
    }

    /** Append records that keep the log valid; one file write. */
    method Append(added: seq<Record>)
      requires Valid() && Chained(Signing(sign), Log() + added) && LogValid(Log() + added) && Built(Log() + added)
      modifies this
      ensures Valid() && Log() == old(Log()) + added
    {
      hide Built, LogValid, Chained;
      LinksTogether(lines, added);
      lines := lines + AsLines(added);
    }

    /** Anchor one journal head. The log never moves backward inside an epoch: the same head is
        answered from the log, an equal or smaller count with another head is refused. */
    method Checkpoint(inst: InstallationId, journal: Journal, count: nat, head: Hash, now: int,
                      expectedEpoch: Option<nat>) returns (r: Option<Record>)
      requires Valid()
      modifies this
      ensures Valid()
      ensures var before := old(Log());
              var existing := Latest(before, inst, journal);
              if expectedEpoch.Some? && expectedEpoch.value != MaxEpoch(before, inst) then
                r.None? && lines == old(lines)
              else if existing.Some? && existing.value.body.eventCount == count && existing.value.body.headHash == head then
                r == existing && lines == old(lines)
              else if existing.Some? && count <= existing.value.body.eventCount then
                r.None? && lines == old(lines)
              else
                && r.Some? && Log() == before + [r.value]
                && r.value.body == CheckpointBody(before, inst, journal, count, head, now)
                && Latest(Log(), inst, journal) == r && MaxEpoch(Log(), inst) == MaxEpoch(before, inst)
    {
      var read := ReadAndVerify();
      var records := read.value;
      BuiltEpochsNeverDisagree(records, inst);
      var epoch := CurrentEpoch(records, inst).value;
      if expectedEpoch.Some? && epoch != expectedEpoch.value {
        return None;
      }
      var existing := Latest(records, inst, journal);
      if existing.Some? {
        if existing.value.body.eventCount == count && existing.value.body.headHash == head {
          return existing;
        }
        if count <= existing.value.body.eventCount {
          return None;
        }
      }
      var body := Body(2, inst, journal, count, head, now, epoch, None, None, None);
      var record := NextLink(Signing(sign), records, body);
      CheckpointKeepsValid(sign, records, inst, journal, count, head, now);
      CheckpointKeepsBuilt(sign, records, inst, journal, count, head, now);
      LatestAppend(records, record, inst, journal);
      Append([record]);
      return Some(record);
    }

    /** Rebase both restored heads into one new epoch. Re-entry with the same operation and the same
        evidence returns the recorded pair while it is current; anything else about a known operation
        is refused, and a fresh operation always opens the next epoch. */
    method Recover(inst: InstallationId, audit: (nat, Hash), operations: (nat, Hash), op: OperationId,
                   actor: string, manifest: Hash, now: int) returns (r: Option<(Record, Record)>)
      requires Valid()
      modifies this
      ensures Valid()
      ensures var before := old(Log());
              var prior := GroupOf(before, inst, op);
              if prior == [] then
                && r == Some(RecoveryPair(sign, before, inst, audit, operations, op, actor, manifest, now))
                && Log() == before + [r.value.0, r.value.1]
                && MaxEpoch(Log(), inst) == MaxEpoch(before, inst) + 1
              else
                var oldAudit, oldOperations := ByJournal(prior, Audit), ByJournal(prior, Operations);
                && lines == old(lines)
                && (r.Some? <==>
                      && Latest(before, inst, Audit) == Some(oldAudit)
                      && Latest(before, inst, Operations) == Some(oldOperations)
                      && (oldAudit.body.eventCount, oldAudit.body.headHash) == audit
                      && (oldOperations.body.eventCount, oldOperations.body.headHash) == operations
                      && oldAudit.body.actor == Some(actor) && oldAudit.body.manifest == Some(manifest))
                && (r.Some? ==> r.value == (oldAudit, oldOperations))
    {
      var read := ReadAndVerify();
      var records := read.value;
      var prior := GroupOf(records, inst, op);
      if prior != [] {
        assert GroupOk(GroupOf(records, inst, op));
        var oldAudit, oldOperations := ByJournal(prior, Audit), ByJournal(prior, Operations);
        if Latest(records, inst, Audit) != Some(oldAudit) || Latest(records, inst, Operations) != Some(oldOperations) {
          return None;
        }
        if (oldAudit.body.eventCount, oldAudit.body.headHash) != audit
           || (oldOperations.body.eventCount, oldOperations.body.headHash) != operations
           || oldAudit.body.actor != Some(actor) || oldAudit.body.manifest != Some(manifest) {
          return None;
        }
        return Some((oldAudit, oldOperations));
      }
      BuiltEpochsNeverDisagree(records, inst);
      var pair := RecoveryPair(sign, records, inst, audit, operations, op, actor, manifest, now);
      RecoveryKeepsValid(sign, records, inst, audit, operations, op, actor, manifest, now);
      RecoveryKeepsBuilt(sign, records, inst, audit, operations, op, actor, manifest, now);
      Append([pair.0, pair.1]);
      return Some(pair);
    }
  }

  function AsLines(added: seq<Record>): seq<Line<Body>> {
    seq(|added|, i requires 0 <= i < |added| => Whole(added[i]))
  }

  lemma LinksTogether(lines: seq<Line<Body>>, added: seq<Record>)
    requires AllWhole(lines)
    ensures AllWhole(lines + AsLines(added)) && Links(lines + AsLines(added)) == Links(lines) + added
  {
  }

  lemma BrokenPrefix(sign: Signer<Body>, lines: seq<Line<Body>>, k: nat)
    requires k <= |lines|
    requires !(AllWhole(lines[..k]) && Chained(Signing(sign), Links(lines[..k])))
    ensures !Accepted(sign, lines)
  {
    if AllWhole(lines) {
      assert Links(lines)[..k] == Links(lines[..k]);
      if Chained(Signing(sign), Links(lines)) {
        PrefixChained(Signing(sign), Links(lines), k);
      }
    }
  }
}
