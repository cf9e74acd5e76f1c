/** The append-only, hash-chained decision log (decisionlog/store.py). */
module DecisionLog {
  import opened Wrappers
  import opened DecisionRecord

  function Get(e: Dict, key: Key): Json {
    if key in e then e[key] else Null
  }

  /** An entry without its stored hash. */
  function Body(e: Dict): Dict {
    e - {StoredHash}
  }

  /** The stored hash of the last entry; Null for an empty log. */
  function Tail(entries: seq<Dict>): Json {
    if entries == [] then Null else Get(entries[|entries| - 1], StoredHash)
  }

  /** What `append` writes for a record once its prev_hash is set. */
  function Stamped(hash: Dict -> string, r: Record): Dict {
    ToDict(r)[StoredHash := Str(ContentHash(hash, r))]
  }

  function Rechained(r: Record, last: Json): Record {
    r.(prevHash := last)
  }

  function Appended(hash: Dict -> string, entries: seq<Dict>, r: Record, last: Json): seq<Dict> {
    entries + [Stamped(hash, Rechained(r, last))]
  }

  predicate Linked(entries: seq<Dict>, i: nat)
    requires i < |entries|
  {
    Get(entries[i], PrevHash) == Tail(entries[..i])
  }

  predicate Honest(hash: Dict -> string, e: Dict) {
    Get(e, StoredHash) == Str(hash(Body(e)))
  }

  predicate EntryOk(hash: Dict -> string, entries: seq<Dict>, i: nat)
    requires i < |entries|
  {
    Linked(entries, i) && Honest(hash, entries[i])
  }

  ghost predicate Intact(hash: Dict -> string, entries: seq<Dict>) {
    forall i: nat :: i < |entries| ==> EntryOk(hash, entries, i)
  }

  // ------------------------------------------------------------- the imperative log

  /** The file a log writes to: absent, or a list of JSON lines. */
  class LogFile {
    var lines: Option<seq<Dict>>

    constructor ()
      ensures lines == None
    {
      lines := None;
    }

    function Entries(): seq<Dict>
      reads this
    {
      if lines.None? then [] else lines.value
    }
  }

  datatype Fault = Relinked | Edited

  datatype Status = Status(records: nat, valid: bool, brokenAt: Option<nat>, fault: Option<Fault>)

  class Log {
    const file: LogFile
    const hash: Dict -> string
    var lastHash: Json

    /** Opening reads the tail hash of whatever is there. */
    constructor (file: LogFile, hash: Dict -> string)
      ensures this.file == file && this.hash == hash
      ensures lastHash == Tail(file.Entries())
    {
      this.file := file;
      this.hash := hash;
      lastHash := Null;
      new;
      if file.lines.Some? {
        var entries := file.lines.value;
        var last: Option<Dict> := None;
        for i := 0 to |entries|
          invariant last == if i == 0 then None else Some(entries[i - 1])
        {
          last := Some(entries[i]);
        }
        lastHash := if last.None? then Null else Get(last.value, StoredHash);
      }
    }

    method Append(record: Record) returns (digest: string)
      modifies this`lastHash, file
      ensures file.Entries() == Appended(hash, old(file.Entries()), record, old(lastHash))
      ensures lastHash == Str(digest) == Tail(file.Entries())
      ensures Checked(record).Ok? ==> Checked(Rechained(record, old(lastHash))).Ok?
    {
      var r := record;
      if r.prevHash != lastHash {
        r := Rechained(r, lastHash);
      }
      digest := ContentHash(hash, r);
      var payload := ToDict(r);
      payload := payload[StoredHash := Str(digest)];
      file.lines := Some(file.Entries() + [payload]);
      lastHash := Str(digest);
    }

    method Verify() returns (status: Status)
      ensures status.records == |file.Entries()|
      ensures status.valid <==> Intact(hash, file.Entries())
      ensures !status.valid ==>
        && status.brokenAt.Some?
        && var b := status.brokenAt.value;
           && b < |file.Entries()|
           && Intact(hash, file.Entries()[..b])
           && !EntryOk(hash, file.Entries(), b)
           && status.fault == Some(if Linked(file.Entries(), b) then Edited else Relinked)
    {
      var entries := file.Entries();
      var prev := Null;
      for index := 0 to |entries|
        invariant prev == Tail(entries[..index])
        invariant forall i: nat :: i < index ==> EntryOk(hash, entries, i)
      {
        var entry := entries[index];
        var storedHash := Get(entry, StoredHash);
        var body := Body(entry);
        if Get(body, PrevHash) != prev || Str(hash(body)) != storedHash {
          PrefixIntact(hash, entries, index);
          assert !EntryOk(hash, entries, index);
          var fault := if Get(body, PrevHash) != prev then Relinked else Edited;
          return Status(|entries|, false, Some(index), Some(fault));
        }
        prev := storedHash;
      }
      return Status(|entries|, true, None, None);
    }
  }

  // --------------------------------------------------------------- prefix and append

  lemma PrefixIntact(hash: Dict -> string, entries: seq<Dict>, k: nat)
    requires k <= |entries|
    requires forall i: nat :: i < k ==> EntryOk(hash, entries, i)
    ensures Intact(hash, entries[..k])
  {
    forall i: nat | i < k
      ensures EntryOk(hash, entries[..k], i)
    {
      assert EntryOk(hash, entries, i);
      assert entries[..k][..i] == entries[..i];
    }
  }

  /** Every prefix of an intact log is intact: cutting the tail off is not reported by itself. */
  lemma TruncationVerifies(hash: Dict -> string, entries: seq<Dict>, k: nat)
    requires k <= |entries| && Intact(hash, entries)
    ensures Intact(hash, entries[..k])
  {
    PrefixIntact(hash, entries, k);
  }

  lemma StampedBody(hash: Dict -> string, r: Record)
    ensures Body(Stamped(hash, r)) == ToDict(r)
    ensures Honest(hash, Stamped(hash, r))
    ensures Get(Stamped(hash, r), PrevHash) == r.prevHash
  {
    var d := ToDict(r);
    assert StoredHash !in d;
    assert Body(Stamped(hash, r)) == d;
  }

  /** Appending to an intact log keeps it intact exactly when the handle's last hash is the file's tail:
      one handle at a time always does, a second handle opened earlier does not. */
  lemma AppendKeepsIntact(hash: Dict -> string, entries: seq<Dict>, r: Record, last: Json)
    requires Intact(hash, entries)
    ensures Intact(hash, Appended(hash, entries, r, last)) <==> last == Tail(entries)
    ensures Tail(Appended(hash, entries, r, last)) == Str(ContentHash(hash, Rechained(r, last)))
  {
    var grown := Appended(hash, entries, r, last);
    StampedBody(hash, Rechained(r, last));
    assert grown[..|entries|] == entries;
    forall i: nat | i < |entries|
      ensures EntryOk(hash, grown, i)
    {
      assert EntryOk(hash, entries, i);
      assert grown[..i] == entries[..i];
    }
    assert EntryOk(hash, grown, |entries|) <==> last == Tail(entries);
  }

  // -------------------------------------------------------------------- tampering

  lemma HonestTail(hash: Dict -> string, entries: seq<Dict>, i: nat)
    requires i < |entries| && Intact(hash, entries)
    ensures Get(entries[i], StoredHash) == Str(hash(Body(entries[i])))
    ensures StoredHash in entries[i]
  {
    assert EntryOk(hash, entries, i);
  }

  lemma SameBodySameEntry(a: Dict, b: Dict)
    requires StoredHash in a && StoredHash in b && a[StoredHash] == b[StoredHash] && Body(a) == Body(b)
    ensures a == b
  {
    assert a == Body(a)[StoredHash := a[StoredHash]];
    assert b == Body(b)[StoredHash := b[StoredHash]];
  }

  /** If two intact logs share a stored hash anywhere, they agree record for record up to there. */
  lemma {:induction false} SharedHashSharedHistory(hash: Dict -> string, a: seq<Dict>, b: seq<Dict>, i: nat, j: nat)
    requires Injective(hash) && Intact(hash, a) && Intact(hash, b)
    requires i < |a| && j < |b| && Get(a[i], StoredHash) == Get(b[j], StoredHash)
    ensures i == j && a[..i + 1] == b[..j + 1]
  {
    HonestTail(hash, a, i);
    HonestTail(hash, b, j);
    assert hash(Body(a[i])) == hash(Body(b[j]));
    SameBodySameEntry(a[i], b[j]);
    assert EntryOk(hash, a, i) && EntryOk(hash, b, j);
    if i > 0 {
      HonestTail(hash, a, i - 1);
      assert a[..i][i - 1] == a[i - 1];
    }
    if j > 0 {
      HonestTail(hash, b, j - 1);
      assert b[..j][j - 1] == b[j - 1];
    }
    assert Tail(a[..i]) == Tail(b[..j]);
    if i > 0 && j > 0 {
      SharedHashSharedHistory(hash, a, b, i - 1, j - 1);
      assert a[..i + 1] == a[..i] + [a[i]] && b[..j + 1] == b[..j] + [b[j]];
    }
  }

  /** Two logs that both verify and end in the same stored hash are identical. */
  lemma TailDeterminesLog(hash: Dict -> string, a: seq<Dict>, b: seq<Dict>)
    requires Injective(hash) && Intact(hash, a) && Intact(hash, b)
    requires Tail(a) == Tail(b)
    ensures a == b
  {
    if a != [] {
      HonestTail(hash, a, |a| - 1);
    }
    if b != [] {
      HonestTail(hash, b, |b| - 1);
    }
    if a != [] && b != [] {
      SharedHashSharedHistory(hash, a, b, |a| - 1, |b| - 1);
      assert a[..|a|] == a && b[..|b|] == b;
    }
  }

  lemma PredecessorHash(hash: Dict -> string, entries: seq<Dict>, i: nat)
    requires Intact(hash, entries) && i < |entries|
    ensures Get(entries[i], PrevHash) == if i == 0 then Null else Get(entries[i - 1], StoredHash)
  {
    assert EntryOk(hash, entries, i);
    if i > 0 {
      assert entries[..i][i - 1] == entries[i - 1];
    }
  }

  /** Removing a block of records is reported exactly when something after the block remains. */
  lemma RemovalDetected(hash: Dict -> string, a: seq<Dict>, i: nat, j: nat)
    requires Injective(hash) && Intact(hash, a) && i < j <= |a|
    ensures Intact(hash, a[..i] + a[j..]) <==> j == |a|
  {
    var b := a[..i] + a[j..];
    if j == |a| {
      assert b == a[..i];
      TruncationVerifies(hash, a, i);
    } else if Intact(hash, b) {
      assert b[i] == a[j];
      PredecessorHash(hash, a, j);
      PredecessorHash(hash, b, i);
      HonestTail(hash, a, j - 1);
      if i > 0 {
        assert b[i - 1] == a[i - 1];
        SharedHashSharedHistory(hash, a, a, j - 1, i - 1);
      }
    }
  }

  lemma SamePrefixSameEntry(a: seq<Dict>, b: seq<Dict>, i: nat)
    requires i < |a| && i < |b| && a[..i + 1] == b[..i + 1]
    ensures a[i] == b[i]
  {
    assert a[..i + 1][i] == b[..i + 1][i];
  }

  /** Replacing a record by a different one is reported unless it is the last and is itself well chained. */
  lemma EditDetected(hash: Dict -> string, a: seq<Dict>, i: nat, e: Dict)
    requires Injective(hash) && Intact(hash, a) && i < |a| && e != a[i]
    ensures Intact(hash, a[i := e]) <==> i == |a| - 1 && Honest(hash, e) && Get(e, PrevHash) == Tail(a[..i])
  {
    var b := a[i := e];
    assert b[..i] == a[..i];
    if Intact(hash, b) {
      assert EntryOk(hash, b, i);
      if i + 1 < |a| {
        PredecessorHash(hash, a, i + 1);
        PredecessorHash(hash, b, i + 1);
        assert a[i + 1] == b[i + 1];
        SharedHashSharedHistory(hash, a, b, i, i);
        SamePrefixSameEntry(a, b, i);
      }
    } else if i == |a| - 1 {
      forall k: nat | k < i
        ensures EntryOk(hash, b, k)
      {
        assert EntryOk(hash, a, k);
        assert b[..k] == a[..k];
      }
      assert !EntryOk(hash, b, i);
    }
  }

  /** Whatever is removed from a log, repeated, reordered or inserted again elsewhere: of all the logs
      that can be put together from its entries, exactly its prefixes verify. */
  lemma OnlyPrefixesVerify(hash: Dict -> string, a: seq<Dict>, b: seq<Dict>)
    requires Injective(hash) && Intact(hash, a) && forall e :: e in b ==> e in a
    ensures Intact(hash, b) <==> |b| <= |a| && b == a[..|b|]
  {
    if |b| <= |a| && b == a[..|b|] {
      TruncationVerifies(hash, a, |b|);
    } else if Intact(hash, b) && b != [] {
      var j := |b| - 1;
      assert b[j] in a;
      var i :| 0 <= i < |a| && a[i] == b[j];
      SharedHashSharedHistory(hash, a, b, i, j);
    }
  }

  /** So swapping any two records is reported. */
  lemma ReorderDetected(hash: Dict -> string, a: seq<Dict>, i: nat, j: nat)
    requires Injective(hash) && Intact(hash, a) && i < j < |a|
    ensures !Intact(hash, a[i := a[j]][j := a[i]])
  {
    var b := a[i := a[j]][j := a[i]];
    OnlyPrefixesVerify(hash, a, b);
    if Intact(hash, b) {
      assert a[i] == b[j] && b == a;
      SharedHashSharedHistory(hash, a, a, i, j);
    }
  }

  // ----------------------------------------------------------------------- runs

  datatype Op = AppendOp(record: Record) | Reopen

  datatype State = State(entries: seq<Dict>, last: Json)

  function Step(hash: Dict -> string, s: State, op: Op): State {
    match op
    case AppendOp(r) =>
      var grown := Appended(hash, s.entries, r, s.last);
      State(grown, Tail(grown))
    case Reopen => State(s.entries, Tail(s.entries))
  }

  function Run(hash: Dict -> string, ops: seq<Op>): State {
    if ops == [] then State([], Null) else Step(hash, Run(hash, ops[..|ops| - 1]), ops[|ops| - 1])
  }

  /** The records of the append operations, in order. */
  function Records(ops: seq<Op>): seq<Record> {
    if ops == [] then []
    else
      var rest := Records(ops[..|ops| - 1]);
      match ops[|ops| - 1]
      case AppendOp(r) => rest + [r]
      case Reopen => rest
  }

  /** Whatever is appended, with whatever prev_hash, and wherever the log is closed and reopened: the
      chain verifies, the in-memory hash is the file's tail, and entry i is record i with only its
      prev_hash replaced. */
  lemma {:induction false} RunVerifies(hash: Dict -> string, ops: seq<Op>)
    ensures Intact(hash, Run(hash, ops).entries)
    ensures Run(hash, ops).last == Tail(Run(hash, ops).entries)
    ensures |Run(hash, ops).entries| == |Records(ops)|
    ensures forall i: nat :: i < |Records(ops)| ==>
      Run(hash, ops).entries[i] == Stamped(hash, Rechained(Records(ops)[i], Tail(Run(hash, ops).entries[..i])))
  {
    hide Stamped, Rechained, EntryOk;
    if ops != [] {
      var k := |ops| - 1;
      RunVerifies(hash, ops[..k]);
      var s := Run(hash, ops[..k]);
      match ops[k]
      case AppendOp(r) =>
        AppendKeepsIntact(hash, s.entries, r, s.last);
        var grown := Appended(hash, s.entries, r, s.last);
        assert grown[..|s.entries|] == s.entries;
        forall i: nat | i < |s.entries|
          ensures grown[i] == s.entries[i] && grown[..i] == s.entries[..i]
        {
        }
      case Reopen =>
    }
  }

  /** Two handles on one file: the second one's append breaks the chain. */
  lemma StaleHandleBreaksChain(hash: Dict -> string, entries: seq<Dict>, r1: Record, r2: Record)
    requires Intact(hash, entries)
    ensures var first := Appended(hash, entries, r1, Tail(entries));
            Intact(hash, Appended(hash, first, r2, Tail(entries))) <==> Tail(first) == Tail(entries)
    ensures Injective(hash) ==> !Intact(hash, Appended(hash, Appended(hash, entries, r1, Tail(entries)), r2, Tail(entries)))
  {
    var first := Appended(hash, entries, r1, Tail(entries));
    AppendKeepsIntact(hash, entries, r1, Tail(entries));
    AppendKeepsIntact(hash, first, r2, Tail(entries));
    if Injective(hash) && Tail(first) == Tail(entries) {
      TailDeterminesLog(hash, first, entries);
    }
  }
}
