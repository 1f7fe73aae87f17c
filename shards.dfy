/**
 * Sharding in `play`: the authorities responsible for the inputs (the Query
 * shard) and for the transaction id (the Commit shard), each given as the
 * sub-list of the directory whose ids fall in the responsible set.
 */
module Shards {
  import opened Ledger

  /** The directory lines whose authority id is in `auths`, in directory order. */
  function ShardOf(directory: seq<Authority>, auths: set<AuthId>): (r: seq<Authority>)
    ensures |r| <= |directory|
    ensures forall a :: a in r ==> a in directory && a.kid in auths
  {
    if directory == [] then []
    else if directory[0].kid in auths then [directory[0]] + ShardOf(directory[1..], auths)
    else ShardOf(directory[1..], auths)
  }

  /** `sub` is `s` with some elements dropped and the rest kept in order. */
  ghost predicate IsSubsequence<T>(sub: seq<T>, s: seq<T>)
    decreases |s|
  {
    if sub == [] then true
    else if s == [] then false
    else (sub[0] == s[0] && IsSubsequence(sub[1..], s[1..])) || IsSubsequence(sub, s[1..])
  }

  /**
   * The shard keeps directory order and holds exactly the directory lines
   * whose id is in `auths`.
   */
  lemma {:induction false} ShardIsOrderedSublist(directory: seq<Authority>, auths: set<AuthId>)
    ensures IsSubsequence(ShardOf(directory, auths), directory)
    ensures forall a :: a in ShardOf(directory, auths) <==> a in directory && a.kid in auths
  {
    if directory != [] {
      var rest := directory[1..];
      ShardIsOrderedSublist(rest, auths);
      assert directory == [directory[0]] + rest;
      if directory[0].kid in auths {
        assert ([directory[0]] + ShardOf(rest, auths))[1..] == ShardOf(rest, auths);
      }
    }
  }

  /** Each selected authority occurs in the shard as often as in the directory. */
  lemma {:induction false} ShardKeepsMultiplicity(directory: seq<Authority>, auths: set<AuthId>, a: Authority)
    ensures multiset(ShardOf(directory, auths))[a] == if a.kid in auths then multiset(directory)[a] else 0
  {
    if directory != [] {
      ShardKeepsMultiplicity(directory[1..], auths, a);
      assert directory == [directory[0]] + directory[1..];
    }
  }

  /** No two directory lines share an authority id. */
  predicate DistinctIds(directory: seq<Authority>)
  {
    forall i, j :: 0 <= i < j < |directory| ==> directory[i].kid != directory[j].kid
  }

  function IdsOf(directory: seq<Authority>): set<AuthId>
  {
    set a | a in directory :: a.kid
  }

  /**
   * With distinct ids, the shard has one line per responsible authority
   * listed in the directory: three for a set of three listed ids.
   */
  lemma {:induction false} ShardSize(directory: seq<Authority>, auths: set<AuthId>)
    requires DistinctIds(directory)
    ensures |ShardOf(directory, auths)| == |auths * IdsOf(directory)|
  {
    if directory != [] {
      IdsOfCons(directory);
      ShardSize(directory[1..], auths);
      if directory[0].kid in auths {
        ShardSizeKeep(directory, auths);
      } else {
        ShardSizeSkip(directory, auths);
      }
    }
  }

  lemma ShardSizeKeep(directory: seq<Authority>, auths: set<AuthId>)
    requires directory != [] && directory[0].kid in auths
    requires IdsOf(directory) == {directory[0].kid} + IdsOf(directory[1..])
    requires directory[0].kid !in IdsOf(directory[1..])
    requires |ShardOf(directory[1..], auths)| == |auths * IdsOf(directory[1..])|
    ensures |ShardOf(directory, auths)| == |auths * IdsOf(directory)|
  {
    var common := auths * IdsOf(directory[1..]);
    assert auths * IdsOf(directory) == {directory[0].kid} + common;
    assert |{directory[0].kid} + common| == |common| + 1;
  }

  lemma ShardSizeSkip(directory: seq<Authority>, auths: set<AuthId>)
    requires directory != [] && directory[0].kid !in auths
    requires IdsOf(directory) == {directory[0].kid} + IdsOf(directory[1..])
    requires |ShardOf(directory[1..], auths)| == |auths * IdsOf(directory[1..])|
    ensures |ShardOf(directory, auths)| == |auths * IdsOf(directory)|
  {
    assert auths * IdsOf(directory) == auths * IdsOf(directory[1..]);
  }

  /** The first line's id is new, and the ids of a directory are its first id and the rest's. */
  lemma IdsOfCons(directory: seq<Authority>)
    requires directory != [] && DistinctIds(directory)
    ensures IdsOf(directory) == {directory[0].kid} + IdsOf(directory[1..])
    ensures directory[0].kid !in IdsOf(directory[1..])
    ensures DistinctIds(directory[1..])
  {
    var rest := directory[1..];
    assert directory == [directory[0]] + rest;
    forall a | a in rest ensures a.kid != directory[0].kid {
      var j :| 0 <= j < |rest| && rest[j] == a;
      assert directory[j + 1] == a;
    }
  }

  /** The authorities responsible for the inputs with locator keys `inKeys` (`Qauths`). */
  function QueryAuthorities(directory: seq<Authority>, inKeys: seq<Bytes>, lib: Library): (r: set<AuthId>)
    ensures forall a :: a in r <==> exists i :: 0 <= i < |inKeys| && a in lib.authoritiesFor(directory, inKeys[i])
  {
    if inKeys == [] then {}
    else
      var last := inKeys[|inKeys| - 1];
      var r := QueryAuthorities(directory, inKeys[..|inKeys| - 1], lib) + (set a | a in lib.authoritiesFor(directory, last));
      assert forall i :: 0 <= i < |inKeys| - 1 ==> inKeys[..|inKeys| - 1][i] == inKeys[i];
      r
  }

  /**
   * The authorities responsible for the transaction id (`Cauths`): the ids
   * `get_authorities` lists, with repetitions collapsed, so never more of
   * them than it lists.
   */
  function CommitAuthorities(directory: seq<Authority>, txId: TxId, lib: Library): (r: set<AuthId>)
    ensures forall a :: a in r <==> a in lib.authoritiesFor(directory, txId)
    ensures |r| <= |lib.authoritiesFor(directory, txId)|
  {
    var listed := lib.authoritiesFor(directory, txId);
    ElementsBound(listed);
    set a | a in listed
  }

  /** A list has at least as many entries as distinct elements. */
  lemma {:induction false} ElementsBound<T>(s: seq<T>)
    ensures |set x | x in s| <= |s|
  {
    if s != [] {
      var rest := s[1..];
      ElementsBound(rest);
      assert (set x | x in s) == {s[0]} + (set x | x in rest) by {
        assert s == [s[0]] + rest;
      }
    }
  }
}
