/**
 * The decisions `play` and the issuance path take on the authorities'
 * replies: unanimous "OK" for Commit, "OK" plus a release pair per reply for
 * Query, and for issuance a distinct, verified, responsible signer per reply.
 */
module Quorum {
  import opened Wrappers
  import opened Ledger

  /**
   * A reply as `unpackage_commit_response` / `unpackage_query_response` give
   * it: a status tag and the fields after it. `Unreadable` is a reply they
   * cannot unpack, such as the `None` of a lost connection.
   */
  datatype Reply = Reply(tag: Bytes, fields: seq<Bytes>) | Unreadable

  datatype ProtocolError =
    | MalformedCore           // the core has no transaction field
    | DirectoryInconsistency  // the Commit shard does not have 3 authorities
    | WrongReplyCount         // a Commit round did not bring exactly 3 replies
    | UnreadableReply         // a reply could not be unpacked
    | QueryFailed             // "Query failed."
    | CommitFailed            // "Commit failed."
    | NotOk                   // "Response not OK." on the issuance path
    | InvalidSignature        // "Invalid Signature." on the issuance path

  /** The size of a Commit shard. */
  const QuorumSize := 3

  predicate IsOk(r: Reply)
  {
    r.Reply? && r.tag == "OK"
  }

  /** Replies before index `i` are "OK" and reply `i` is not. */
  predicate FirstNotOkAt(resp: seq<Reply>, i: int)
  {
    0 <= i < |resp| && !IsOk(resp[i]) && forall j :: 0 <= j < i ==> IsOk(resp[j])
  }

  /** The loop of `get_commit_responses`: stop at the first reply that is not "OK". */
  function ScanCommit(resp: seq<Reply>): (r: Outcome<ProtocolError>)
    ensures r == Pass <==> forall i :: 0 <= i < |resp| ==> IsOk(resp[i])
    ensures r == Fail(CommitFailed) <==> exists i :: FirstNotOkAt(resp, i) && resp[i].Reply?
    ensures r == Fail(UnreadableReply) <==> exists i :: FirstNotOkAt(resp, i) && resp[i].Unreadable?
  {
    if resp == [] then Pass
    else if resp[0].Unreadable? then
      assert FirstNotOkAt(resp, 0);
      Fail(UnreadableReply)
    else if resp[0].tag != "OK" then
      assert FirstNotOkAt(resp, 0);
      Fail(CommitFailed)
    else
      var r := ScanCommit(resp[1..]);
      assert forall i :: FirstNotOkAt(resp, i) <==> i > 0 && FirstNotOkAt(resp[1..], i - 1);
      assert forall i :: 0 < i < |resp| ==> resp[i] == resp[1..][i - 1];
      r
  }

  /** `get_commit_responses`: exactly three replies, every one "OK". */
  function CheckCommit(resp: seq<Reply>): (r: Outcome<ProtocolError>)
    ensures r == Pass <==> |resp| == QuorumSize && forall i :: 0 <= i < |resp| ==> IsOk(resp[i])
    ensures r == Fail(CommitFailed) <==>
      |resp| == QuorumSize && exists i :: FirstNotOkAt(resp, i) && resp[i].Reply?
    ensures r == Fail(UnreadableReply) <==>
      |resp| == QuorumSize && exists i :: FirstNotOkAt(resp, i) && resp[i].Unreadable?
    ensures r == Fail(WrongReplyCount) <==> |resp| != QuorumSize
  {
    if |resp| != QuorumSize then Fail(WrongReplyCount) else ScanCommit(resp)
  }
}

module QueryRound {
  import opened Wrappers
  import opened Ledger
  import opened Quorum

  /** The release key and token a Query acknowledgement carries, `(k, s)`. */
  datatype Release = Release(k: Bytes, s: Bytes)

  /** An "OK" reply that unpacks as `(tag, k, s)`. */
  predicate Acknowledges(r: Reply)
  {
    IsOk(r) && |r.fields| == 2
  }

  /** Replies before index `i` acknowledge and reply `i` does not. */
  predicate FirstUnacknowledgedAt(resp: seq<Reply>, i: int)
  {
    0 <= i < |resp| && !Acknowledges(resp[i]) && forall j :: 0 <= j < i ==> Acknowledges(resp[j])
  }

  /**
   * `process_query_response` up to the Commit: every reply must be "OK" and
   * yields its `(k, s)` pair, in reply order; the first reply that is not
   * "OK" fails the Query, one that does not unpack raises.
   */
  function CollectReleases(resp: seq<Reply>): (r: Result<seq<Release>, ProtocolError>)
    ensures r.Ok? <==> forall i :: 0 <= i < |resp| ==> Acknowledges(resp[i])
    ensures r.Ok? ==> |r.value| == |resp|
    ensures r.Ok? ==> forall i :: 0 <= i < |resp| ==>
      Acknowledges(resp[i]) && r.value[i] == Release(resp[i].fields[0], resp[i].fields[1])
    ensures r == Err(QueryFailed) <==> exists i :: FirstUnacknowledgedAt(resp, i) && !IsOk(resp[i]) && resp[i].Reply?
    ensures r.Err? ==> r.error == QueryFailed || r.error == UnreadableReply
  {
    if resp == [] then Ok([])
    else if resp[0].Unreadable? then
      assert FirstUnacknowledgedAt(resp, 0);
      Err(UnreadableReply)
    else if resp[0].tag != "OK" then
      assert FirstUnacknowledgedAt(resp, 0);
      Err(QueryFailed)
    else if |resp[0].fields| != 2 then
      assert FirstUnacknowledgedAt(resp, 0);
      Err(UnreadableReply)
    else
      var rest := CollectReleases(resp[1..]);
      assert forall i :: FirstUnacknowledgedAt(resp, i) <==> i > 0 && FirstUnacknowledgedAt(resp[1..], i - 1);
      assert forall i :: 0 < i < |resp| ==> resp[i] == resp[1..][i - 1];
      match rest
      case Err(e) => Err(e)
      case Ok(kss) => Ok([Release(resp[0].fields[0], resp[0].fields[1])] + kss)
  }
}

module IssuanceRound {
  import opened Wrappers
  import opened Ledger
  import opened Quorum

  /** An "OK" reply `(tag, pub, sig)` whose signature over `txId` verifies under `pub`. */
  predicate Signed(m: Reply, txId: TxId, lib: Library)
  {
    IsOk(m) && |m.fields| == 2 && lib.verify(m.fields[0], txId, m.fields[1])
  }

  /** The authority id of the key that signed the reply. */
  function Signer(m: Reply, lib: Library): AuthId
    requires m.Reply? && |m.fields| == 2
  {
    lib.keyIdOf(m.fields[0])
  }

  /** The signers of the signed replies. */
  function Signers(results: seq<Reply>, txId: TxId, lib: Library): set<AuthId>
  {
    set i | 0 <= i < |results| && Signed(results[i], txId, lib) :: Signer(results[i], lib)
  }

  /** The checks of `r_process`, reply by reply, against the authorities not yet counted. */
  function IssuanceScan(results: seq<Reply>, remaining: set<AuthId>, txId: TxId, lib: Library): Result<set<AuthId>, ProtocolError>
    decreases |results|
  {
    if results == [] then Ok(remaining)
    else
      var m := results[0];
      if m.Unreadable? then Err(UnreadableReply)
      else if m.tag != "OK" then Err(NotOk)
      else if |m.fields| != 2 then Err(UnreadableReply)
      else if !(lib.verify(m.fields[0], txId, m.fields[1]) && Signer(m, lib) in remaining) then Err(InvalidSignature)
      else IssuanceScan(results[1..], remaining - {Signer(m, lib)}, txId, lib)
  }

  /**
   * `r_process`: each reply must be "OK", carry a valid signature, and come
   * from a responsible authority not counted before; each counted authority
   * is removed from `auths`. Returns the authorities left uncounted.
   */
  method CheckIssuance(results: seq<Reply>, auths: set<AuthId>, txId: TxId, lib: Library)
    returns (r: Result<set<AuthId>, ProtocolError>)
    ensures r == IssuanceScan(results, auths, txId, lib)
  {
    var remaining := auths;
    var i := 0;
    while i < |results|
      invariant 0 <= i <= |results|
      invariant IssuanceScan(results[i..], remaining, txId, lib) == IssuanceScan(results, auths, txId, lib)
    {
      var m := results[i];
      assert results[i..][1..] == results[i + 1..];
      if m.Unreadable? || m.tag != "OK" {
        return if m.Unreadable? then Err(UnreadableReply) else Err(NotOk);
      }
      if |m.fields| != 2 {
        return Err(UnreadableReply);
      }
      var pub, sig := m.fields[0], m.fields[1];
      var kid := lib.keyIdOf(pub);
      if !(lib.verify(pub, txId, sig) && kid in remaining) {
        return Err(InvalidSignature);
      }
      remaining := remaining - {kid};
      i := i + 1;
    }
    r := Ok(remaining);
  }

  /**
   * The issuance check passes exactly when every reply is signed by a
   * responsible authority and no authority signs twice.
   */
  lemma {:induction false} IssuanceAcceptedIff(results: seq<Reply>, auths: set<AuthId>, txId: TxId, lib: Library)
    ensures IssuanceScan(results, auths, txId, lib).Ok? <==>
      && (forall i :: 0 <= i < |results| ==> Signed(results[i], txId, lib) && Signer(results[i], lib) in auths)
      && (forall i, j :: 0 <= i < j < |results| && Signed(results[i], txId, lib) && Signed(results[j], txId, lib) ==>
            Signer(results[i], lib) != Signer(results[j], lib))
    decreases |results|
  {
    if results != [] {
      var m, rest := results[0], results[1..];
      assert forall i :: 0 < i < |results| ==> results[i] == rest[i - 1];
      if Signed(m, txId, lib) && Signer(m, lib) in auths {
        IssuanceAcceptedIff(rest, auths - {Signer(m, lib)}, txId, lib);
      }
    }
  }

  lemma SignersCons(results: seq<Reply>, txId: TxId, lib: Library)
    requires results != [] && Signed(results[0], txId, lib)
    ensures Signers(results, txId, lib) == {Signer(results[0], lib)} + Signers(results[1..], txId, lib)
  {
    var rest := results[1..];
    forall x | x in Signers(rest, txId, lib) ensures x in Signers(results, txId, lib) {
      var j :| 0 <= j < |rest| && Signed(rest[j], txId, lib) && Signer(rest[j], lib) == x;
      assert results[j + 1] == rest[j];
    }
    forall x | x in Signers(results, txId, lib) && x != Signer(results[0], lib)
      ensures x in Signers(rest, txId, lib)
    {
      var j :| 0 <= j < |results| && Signed(results[j], txId, lib) && Signer(results[j], lib) == x;
      assert j > 0;
      assert rest[j - 1] == results[j];
    }
  }

  /**
   * When the check passes, the uncounted authorities are those that signed
   * nothing, and as many authorities were counted as there are replies.
   */
  lemma {:induction false} IssuanceCountsEachOnce(results: seq<Reply>, auths: set<AuthId>, txId: TxId, lib: Library)
    requires IssuanceScan(results, auths, txId, lib).Ok?
    ensures IssuanceScan(results, auths, txId, lib).value == auths - Signers(results, txId, lib)
    ensures |IssuanceScan(results, auths, txId, lib).value| + |results| == |auths|
    decreases |results|
  {
    if results != [] {
      var m, rest := results[0], results[1..];
      var s := Signer(m, lib);
      IssuanceCountsEachOnce(rest, auths - {s}, txId, lib);
      SignersCons(results, txId, lib);
      assert |auths - {s}| == |auths| - 1;
    } else {
      assert Signers(results, txId, lib) == {};
    }
  }
}

module QuorumExamples {
  import opened Wrappers
  import opened Quorum

  /** Three "OK" replies commit; one refusal among three fails the Commit. */
  lemma CommitExamples()
    ensures CheckCommit([Reply("OK", ["pub", "sig"]), Reply("OK", ["pub", "sig"]), Reply("OK", ["pub", "sig"])]) == Pass
    ensures CheckCommit([Reply("OK", ["pub", "sig"]), Reply("ERROR", []), Reply("OK", ["pub", "sig"])]) == Fail(CommitFailed)
    ensures CheckCommit([Reply("OK", ["pub", "sig"]), Reply("OK", ["pub", "sig"])]) == Fail(WrongReplyCount)
  {
    var bad := [Reply("OK", ["pub", "sig"]), Reply("ERROR", []), Reply("OK", ["pub", "sig"])];
    assert FirstNotOkAt(bad, 1);
  }
}
