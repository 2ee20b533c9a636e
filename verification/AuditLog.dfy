/** The append-only audit journal (src/plaik_core/audit.py): the same chain as the operation
    journal, read in one streaming pass that carries the event count and the previous hash. */
module AuditLogs {
  import opened Prelude
  import opened HashChain

  datatype AuditOutcome = Successful | Failed | Denied

  datatype AuditBody = AuditBody(
    occurredAt: int, actorId: Option<string>, action: string, targetType: string,
    targetId: Option<string>, outcome: AuditOutcome, metadata: map<string, string>)

  predicate Verifies(sign: Signer<AuditBody>, lines: seq<Line<AuditBody>>) {
    AllWhole(lines) && Chained(sign, Links(lines))
  }

  lemma LinksPrefix(lines: seq<Line<AuditBody>>, k: nat)
    requires k < |lines| && AllWhole(lines[..k]) && lines[k].Whole?
    ensures AllWhole(lines[..k + 1]) && Links(lines[..k + 1]) == Links(lines[..k]) + [lines[k].link]
  {
    assert lines[..k + 1] == lines[..k] + [lines[k]];
    assert lines[..k + 1][..k] == lines[..k];
  }

  /** A file that verifies up to line `k` and not through it does not verify at all. */
  lemma RejectedAt(sign: Signer<AuditBody>, lines: seq<Line<AuditBody>>, k: nat)
    requires k < |lines| && !Verifies(sign, lines[..k + 1])
    ensures !Verifies(sign, lines)
  {
    if AllWhole(lines) {
      assert Links(lines)[..k + 1] == Links(lines[..k + 1]);
      if Chained(sign, Links(lines)) {
        PrefixChained(sign, Links(lines), k + 1);
      }
    }
  }

  class AuditLog {
    var lines: seq<Line<AuditBody>>
    const sign: Signer<AuditBody>

    constructor (sign: Signer<AuditBody>)
      ensures this.sign == sign && lines == [] && Verifies(sign, lines)
    {
      this.sign := sign;
      lines := [];
    }

    /** Stream the verified events; succeeds exactly on a verifying file, with its count and head. */
    method Scan() returns (r: Result<(nat, Hash), ()>)
      ensures r.Success? <==> Verifies(sign, lines)
      ensures r.Success? ==> r.value == (|lines|, Head(Links(lines)))
    {
      var eventCount := 0;
      var previousHash := GENESIS_HASH;
      while eventCount < |lines|
        invariant 0 <= eventCount <= |lines|
        invariant Verifies(sign, lines[..eventCount]) && previousHash == Head(Links(lines[..eventCount]))
      {
        var line := lines[eventCount];
        if line.Torn? {
          return Failure(());
        }
        var event := line.link;
        LinksPrefix(lines, eventCount);
        OnlyNextLinkExtends(sign, Links(lines[..eventCount]), event);
        if event.sequence != eventCount + 1 || event.previousHash != previousHash
           || event.eventHash != sign(event.sequence, event.body, event.previousHash) {
          RejectedAt(sign, lines, eventCount);
          return Failure(());
        }
        previousHash := event.eventHash;
        eventCount := eventCount + 1;
      }
      assert lines[..eventCount] == lines;
      return Success((eventCount, previousHash));
    }

    /** Append one signed event to a verifying file; a file that does not verify is left alone. */
    method AppendEvent(body: AuditBody) returns (r: Result<Link<AuditBody>, ()>)
      modifies this
      ensures r.Success? <==> Verifies(sign, old(lines))
      ensures r.Failure? ==> lines == old(lines)
      ensures r.Success? ==>
                && Verifies(sign, lines) && Links(lines) == Links(old(lines)) + [r.value]
                && r.value.body == body
    {
      var scan := Scan();
      if scan.Failure? {
        return Failure(());
      }
      var event := Link(scan.value.0 + 1, body, scan.value.1, sign(scan.value.0 + 1, body, scan.value.1));
      AppendChained(sign, Links(lines), body);
      lines := lines + [Whole(event)];
      assert lines[..|lines| - 1] == old(lines);
      return Success(event);
    }

    /** Verify against a trusted head. Once the head was taken from some verifying journal, an
        injective signature leaves exactly that journal to succeed. */
    method VerifyAgainst(expectedHead: Hash, ghost anchored: seq<Link<AuditBody>>)
      returns (r: Result<(nat, Hash), ()>)
      requires Injective(sign) && NeverGenesis(sign)
      requires Chained(sign, anchored) && expectedHead == Head(anchored)
      ensures r.Success? <==> AllWhole(lines) && Links(lines) == anchored
      ensures r.Success? ==> r.value == (|anchored|, expectedHead)
    {
      r := Scan();
      if r.Success? {
        HeadFixesChain(sign, Links(lines), anchored);
        if r.value.1 != expectedHead {
          r := Failure(());
        }
      }
    }
  }
}
