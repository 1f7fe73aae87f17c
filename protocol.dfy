/**
 * `play`: one transaction core through the Query and Commit rounds. The
 * broadcasts are not modelled as network I/O: the replies each round brings
 * back are parameters, and the method returns the rounds it sends (who is
 * addressed, with what message) and how the deferred `d_end` ends.
 */
module Protocol {
  import opened Wrappers
  import opened Ledger
  import opened Quorum
  import opened QueryRound
  import opened Shards

  /** What one round sends to every authority of its shard. */
  datatype Message =
    | Query(core: seq<Bytes>)                                  // "Query <n> <core...>"
    | Commit(core: seq<Bytes>)                                 // "Commit <n> <core...>", issuance
    | PackagedCommit(core: seq<Bytes>, releases: seq<Release>) // `package_commit(core, kss)`

  datatype Round = Round(targets: seq<Authority>, message: Message)

  /** How `d_end` ends: its callback (the elapsed time is not modelled) or an error. */
  datatype PlayOutcome = Confirmed | Failed(error: ProtocolError)

  function OutcomeOf(o: Outcome<ProtocolError>): PlayOutcome
  {
    if o.Pass? then Confirmed else Failed(o.error)
  }

  /**
   * Plays the core `core` (base64 fields, the first one the transaction)
   * against `directory`. A transaction with inputs first queries the
   * authorities of its inputs and commits only if every one of them
   * acknowledges; an issuance (no inputs) commits directly. The Commit
   * shard must have exactly three authorities, and the Commit round succeeds
   * only on three "OK" replies. The broadcast gathers exactly one result per
   * shard member, so in a real run `commitReplies` has three entries and the
   * `WrongReplyCount` outcome never arises; the parameter itself is not
   * constrained. Likewise `queryReplies` has, in a real run, exactly one entry
   * per line of the Query shard, possibly none; that is not constrained
   * either.
   */
  method Play(core: seq<Bytes>, directory: seq<Authority>, lib: Library,
              queryReplies: seq<Reply>, commitReplies: seq<Reply>)
    returns (rounds: seq<Round>, outcome: PlayOutcome)
    ensures core == [] ==> rounds == [] && outcome == Failed(MalformedCore)
    ensures core != [] ==>
      var tx := lib.parseTx(lib.b64decode(core[0]));
      var qsmall := ShardOf(directory, QueryAuthorities(directory, lib.utxoInKeys(tx), lib));
      var csmall := ShardOf(directory, CommitAuthorities(directory, lib.txId(tx), lib));
      if |csmall| != QuorumSize then
        rounds == [] && outcome == Failed(DirectoryInconsistency)
      else if tx.inputs == [] then
        rounds == [Round(csmall, Commit(core))] && outcome == OutcomeOf(CheckCommit(commitReplies))
      else
        match CollectReleases(queryReplies)
        case Err(e) =>
          rounds == [Round(qsmall, Query(core))] && outcome == Failed(e)
        case Ok(kss) =>
          && rounds == [Round(qsmall, Query(core)), Round(csmall, PackagedCommit(core, kss))]
          && outcome == OutcomeOf(CheckCommit(commitReplies))
    ensures outcome == Confirmed ==>
      |commitReplies| == QuorumSize && forall i :: 0 <= i < |commitReplies| ==> IsOk(commitReplies[i])
    ensures outcome == Confirmed ==> rounds != [] && !rounds[|rounds| - 1].message.Query?
    ensures forall k :: 0 <= k < |rounds| && rounds[k].message.PackagedCommit? ==>
      k == 1 && rounds[0].message.Query? &&
      forall i :: 0 <= i < |queryReplies| ==> Acknowledges(queryReplies[i])
    ensures forall k :: 0 <= k < |rounds| && !rounds[k].message.Query? ==> |rounds[k].targets| == QuorumSize
  {
    if core == [] {
      return [], Failed(MalformedCore);
    }
    var tx := lib.parseTx(lib.b64decode(core[0]));
    var qauths := CollectQueryAuthorities(directory, lib.utxoInKeys(tx), lib);
    var qsmall := ShardOf(directory, qauths);
    var csmall := ShardOf(directory, CommitAuthorities(directory, lib.txId(tx), lib));
    if |csmall| != QuorumSize {
      return [], Failed(DirectoryInconsistency);
    }
    if |tx.inputs| == 0 {
      rounds := [Round(csmall, Commit(core))];
      outcome := OutcomeOf(CheckCommit(commitReplies));
    } else {
      rounds := [Round(qsmall, Query(core))];
      var q := CollectReleases(queryReplies);
      if q.Err? {
        outcome := Failed(q.error);
      } else {
        rounds := rounds + [Round(csmall, PackagedCommit(core, q.value))];
        outcome := OutcomeOf(CheckCommit(commitReplies));
      }
    }
  }

  /** The loop gathering `Qauths`: every authority responsible for some input. */
  method CollectQueryAuthorities(directory: seq<Authority>, inKeys: seq<Bytes>, lib: Library)
    returns (qauths: set<AuthId>)
    ensures qauths == QueryAuthorities(directory, inKeys, lib)
  {
    qauths := {};
    var i := 0;
    while i < |inKeys|
      invariant 0 <= i <= |inKeys|
      invariant qauths == QueryAuthorities(directory, inKeys[..i], lib)
    {
      assert inKeys[..i + 1][..i] == inKeys[..i];
      qauths := qauths + set a | a in lib.authoritiesFor(directory, inKeys[i]);
      i := i + 1;
    }
    assert inKeys[..i] == inKeys;
  }
}
