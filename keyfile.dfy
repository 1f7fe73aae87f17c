/**
 * The key chain (`load_keys`): one line per known address, either
 * `#<name> sec <base64 id> <base64 secret>` for a key held locally or
 * `#<name> pub <base64 id>` for a recipient. Every line is indexed under its
 * first token; a held key is also indexed under its decoded raw id.
 */
module KeyFile {
  import opened Wrappers
  import opened Ledger

  datatype KeychainError = MalformedLine  // a line too short to index (IndexError)

  /** A line has the tokens `load_keys` reads from it. */
  predicate WellFormed(items: seq<Bytes>)
  {
    |items| >= 2 && (items[1] == "sec" ==> |items| >= 3)
  }

  /** `load_keys` stores the line `items` under the key `k`. */
  predicate Indexes(items: seq<Bytes>, k: Bytes, lib: Library)
  {
    || (|items| >= 1 && items[0] == k)
    || (|items| >= 3 && items[1] == "sec" && lib.b64decode(items[2]) == k)
  }

  predicate AllWellFormed(lines: seq<seq<Bytes>>)
  {
    forall i :: 0 <= i < |lines| ==> WellFormed(lines[i])
  }

  /** What one iteration of `load_keys` stores for a well-formed line. */
  function Store(keys: Keychain, items: seq<Bytes>, lib: Library): Keychain
    requires WellFormed(items)
  {
    var keys' := keys[items[0] := items];
    if items[1] == "sec" then keys'[lib.b64decode(items[2]) := items] else keys'
  }

  /** The key chain built from well-formed lines, one `Store` per line in file order. */
  function Indexed(lines: seq<seq<Bytes>>, lib: Library): Keychain
    requires AllWellFormed(lines)
  {
    if lines == [] then map[]
    else Store(Indexed(lines[..|lines| - 1], lib), lines[|lines| - 1], lib)
  }

  /** The last line indexed under `k`, or -1 when there is none. */
  function LastIndexing(lines: seq<seq<Bytes>>, k: Bytes, lib: Library): (i: int)
    ensures -1 <= i < |lines|
    ensures i >= 0 ==> Indexes(lines[i], k, lib)
    ensures forall j :: i < j < |lines| ==> !Indexes(lines[j], k, lib)
  {
    if lines == [] then -1
    else if Indexes(lines[|lines| - 1], k, lib) then |lines| - 1
    else
      var p := lines[..|lines| - 1];
      assert forall j :: 0 <= j < |p| ==> p[j] == lines[j];
      LastIndexing(p, k, lib)
  }

  /**
   * In the key chain, exactly the keys some line is indexed under appear,
   * and each maps to the last line indexed under it.
   */
  lemma {:induction false} IndexedIsLastWriter(lines: seq<seq<Bytes>>, k: Bytes, lib: Library)
    requires AllWellFormed(lines)
    ensures k in Indexed(lines, lib) <==> LastIndexing(lines, k, lib) >= 0
    ensures k in Indexed(lines, lib) ==> Indexed(lines, lib)[k] == lines[LastIndexing(lines, k, lib)]
  {
    if lines != [] {
      var p := lines[..|lines| - 1];
      assert forall j :: 0 <= j < |p| ==> p[j] == lines[j];
      IndexedIsLastWriter(p, k, lib);
    }
  }

  /**
   * `load_keys` over the lines' tokens: fails when a line is too short to index, and otherwise
   * returns the key chain of all lines.
   */
  method LoadKeys(lines: seq<seq<Bytes>>, lib: Library) returns (r: Result<Keychain, KeychainError>)
    ensures r == if AllWellFormed(lines) then Ok(Indexed(lines, lib)) else Err(MalformedLine)
  {
    var keys: Keychain := map[];
    var n := 0;
    while n < |lines|
      invariant 0 <= n <= |lines|
      invariant AllWellFormed(lines[..n])
      invariant keys == Indexed(lines[..n], lib)
    {
      var items := lines[n];
      if |items| < 2 || (items[1] == "sec" && |items| < 3) {
        return Err(MalformedLine);
      }
      assert lines[..n + 1][..n] == lines[..n];
      keys := keys[items[0] := items];
      if items[1] == "sec" {
        keys := keys[lib.b64decode(items[2]) := items];
      }
      n := n + 1;
    }
    assert lines[..n] == lines;
    r := Ok(keys);
  }
}
