/** The part of the filesystem the store uses, with failures, and the atomic
    write built from it. */
module FileSystem {
  import opened Types
  import opened Encoding
  import opened Dto

  datatype Dir = Base | Identities | Histories

  datatype Path = Path(dir: Dir, name: string)

  type Files = map<Path, Bytes>

  function Lookup(files: Files, p: Path): Option<Bytes> {
    if p in files then Some(files[p]) else None
  }

  // ----- Names -----

  function LastDot(name: string): (i: Option<nat>)
    ensures i.Some? ==> i.value < |name| && name[i.value] == '.'
    ensures forall k :: (if i.Some? then i.value + 1 else 0) <= k < |name| ==> name[k] != '.'
  {
    if name == [] then None
    else if name[|name| - 1] == '.' then Some(|name| - 1)
    else LastDot(name[..|name| - 1])
  }

  /** A file name with its extension replaced, or added when it has none. */
  function WithExtension(name: string, ext: string): string {
    var dot := LastDot(name);
    (if dot.None? || dot.value == 0 then name else name[..dot.value]) + "." + ext
  }

  /** The hexadecimal digits of a nonce, and with the ".tmp-" before them. */
  const NONCE_DIGITS: nat := 16
  const TMP_LENGTH: nat := |".tmp-"| + NONCE_DIGITS

  /** The names `WriteAtomic` gives its temporary files: they end in ".tmp-" and
      sixteen hexadecimal digits. */
  predicate IsTempName(name: string) {
    && |name| >= TMP_LENGTH
    && name[|name| - TMP_LENGTH..|name| - NONCE_DIGITS] == ".tmp-"
    && forall i :: |name| - NONCE_DIGITS <= i < |name| ==> HexValue(name[i]).Some?
  }

  type Nonce = b: Bytes | |b| == 8 witness seq(8, _ => 0 as byte)

  function TempPath(p: Path, nonce: Nonce): Path {
    Path(p.dir, WithExtension(p.name, "tmp-" + HexEncode(nonce)))
  }

  /** A record's temporary file keeps the record's stem and directory. */
  lemma TempOfRecord(dir: Dir, stem: string, nonce: Nonce)
    requires stem != []
    ensures TempPath(Path(dir, stem + ".json"), nonce) == Path(dir, stem + ".tmp-" + HexEncode(nonce))
  {
    var name := stem + ".json";
    assert name[|stem|] == '.' && forall k :: |stem| < k < |name| ==> name[k] == ".json"[k - |stem|] != '.';
    assert LastDot(name) == Some(|stem|);
    assert name[..|stem|] == stem;
    assert stem + "." + ("tmp-" + HexEncode(nonce)) == stem + ".tmp-" + HexEncode(nonce);
  }

  lemma TempPathIsTemp(p: Path, nonce: Nonce)
    ensures IsTempName(TempPath(p, nonce).name)
  {
    HexRoundTrip(nonce);
    HexEncodeIsLowercaseHex(nonce);
    var name, hex := TempPath(p, nonce).name, HexEncode(nonce);
    var tmp := |name| - TMP_LENGTH;
    assert name[tmp..] == ".tmp-" + hex;
    assert name[tmp..|name| - NONCE_DIGITS] == name[tmp..][..|".tmp-"|];
    forall i | |name| - NONCE_DIGITS <= i < |name| ensures HexValue(name[i]).Some? {
      assert name[i] == name[tmp..][i - tmp] == hex[i - (|name| - NONCE_DIGITS)];
    }
  }

  /** A record file is never a temporary file: 'n' is no hexadecimal digit. */
  lemma JsonIsNotTemp(stem: string)
    ensures !IsTempName(stem + ".json")
  {
    var name := stem + ".json";
    assert name[|name| - 1] == 'n';
  }

  /** Everything on the disk but stray temporary files. */
  function Records(files: Files): Files {
    map p | p in files && !IsTempName(p.name) :: files[p]
  }

  lemma TempIsNoRecord(files: Files, tmp: Path, content: Bytes)
    requires IsTempName(tmp.name)
    ensures Records(files[tmp := content]) == Records(files) == Records(files - {tmp})
  {
  }

  lemma RenamePublishes(files: Files, tmp: Path, p: Path, content: Bytes)
    requires IsTempName(tmp.name) && !IsTempName(p.name)
    ensures Records((files - {tmp})[p := content]) == Records(files)[p := content]
  {
  }

  // ----- The disk -----

  /** `more` extends the list of past disk states, and every state it adds shows
      the records of `a` or those of `b`. */
  ghost predicate PassedThrough(past: seq<Files>, more: seq<Files>, a: Files, b: Files) {
    && |past| <= |more| && more[..|past|] == past
    && forall k :: |past| <= k < |more| ==> Records(more[k]) == Records(a) || Records(more[k]) == Records(b)
  }

  lemma NothingPassed(past: seq<Files>, files: Files)
    ensures PassedThrough(past, past, files, files)
  {
  }

  /** Some operation numbered from `from` up to but not including `to` fails. */
  ghost predicate Failed(failing: nat -> bool, from: nat, to: nat) {
    exists k :: from <= k < to && failing(k)
  }

  lemma OneFailed(failing: nat -> bool, k: nat)
    ensures Failed(failing, k, k + 1) <==> failing(k)
    ensures !Failed(failing, k, k)
  {
  }

  lemma FailedSplits(failing: nat -> bool, a: nat, b: nat, c: nat)
    requires a <= b <= c
    ensures Failed(failing, a, c) <==> Failed(failing, a, b) || Failed(failing, b, c)
  {
  }

  lemma FailedWithin(failing: nat -> bool, a: nat, b: nat, c: nat, d: nat)
    requires a <= b <= c <= d && Failed(failing, b, c)
    ensures Failed(failing, a, d)
  {
  }

  /** A temporary file for `p` is lying about, whose name a later write may draw. */
  ghost predicate StrayTemp(files: Files, p: Path) {
    exists nonce: Nonce :: TempPath(p, nonce) in files
  }

  ghost predicate SameTemps(before: Files, after: Files) {
    forall p: Path :: IsTempName(p.name) ==> (p in after <==> p in before)
  }

  lemma SameTempsSameStrays(before: Files, after: Files, p: Path)
    requires SameTemps(before, after)
    ensures StrayTemp(after, p) <==> StrayTemp(before, p)
  {
    forall nonce: Nonce ensures TempPath(p, nonce) in after <==> TempPath(p, nonce) in before {
      TempPathIsTemp(p, nonce);
    }
  }

  /** A disk, and the random source beside it: operation number `k` fails if
      `failing(k)`, and draws `entropy(k)` if it asks for random bytes. `seen` lists
      the contents the disk has had: a crash leaves one of them. */
  class Volume {
    const failing: nat -> bool
    const entropy: nat -> Bytes32
    var ops: nat
    var files: Files
    var seen: seq<Files>

    constructor (initial: Files, failing: nat -> bool, entropy: nat -> Bytes32)
      ensures files == initial && seen == [] && ops == 0 && this.failing == failing && this.entropy == entropy
    {
      files := initial;
      this.failing := failing;
      this.entropy := entropy;
      seen := [];
      ops := 0;
    }

    /** The next operation, and whether it fails. */
    method Next() returns (ok: bool)
      modifies this`ops
      ensures ops == old(ops) + 1 && ok == !failing(old(ops))
    {
      ok := !failing(ops);
      ops := ops + 1;
    }

    method Random() returns (r: Option<Bytes32>)
      modifies this`ops
      ensures ops == old(ops) + 1
      ensures r == if failing(old(ops)) then None else Some(entropy(old(ops)))
    {
      r := if failing(ops) then None else Some(entropy(ops));
      ops := ops + 1;
    }

    /** The process dies: the disk is left as it is, or as it was at some point past
        the first `since` contents seen. */
    method Crash(since: nat)
      requires since <= |seen|
      modifies this`files
      ensures files == old(files) || exists k :: since <= k < |seen| && files == seen[k]
    {
      if since < |seen| {
        var k: nat :| since <= k < |seen|;
        files := seen[k];
        assert files == seen[k];
      }
    }

    method Read(p: Path) returns (r: StoreResult<Option<Bytes>>)
      modifies this`ops
      ensures ops == old(ops) + 1
      ensures r == if failing(old(ops)) then Err(IoError) else Ok(Lookup(files, p))
    {
      var ok := Next();
      if !ok {
        return Err(IoError);
      }
      r := Ok(Lookup(files, p));
    }

    /** Creates an empty file; fails if there is one already. */
    method CreateNew(p: Path) returns (ok: bool)
      modifies this
      ensures ops == old(ops) + 1
      ensures ok <==> !failing(old(ops)) && p !in old(files)
      ensures files == (if ok then old(files)[p := []] else old(files))
      ensures seen == old(seen) + [files]
    {
      ok := Next();
      if p in files {
        ok := false;
      }
      if ok {
        files := files[p := []];
      }
      seen := seen + [files];
    }

    /** Writes chunk by chunk: a crash or an error leaves any prefix. */
    method WriteAll(p: Path, bytes: Bytes) returns (ok: bool)
      requires p in files && IsTempName(p.name)
      modifies this
      ensures p in files && files == old(files)[p := files[p]]
      ensures exists n :: 0 <= n <= |bytes| && files[p] == old(files[p]) + bytes[..n]
      ensures ok ==> files[p] == old(files[p]) + bytes
      ensures ops >= old(ops) && (ok <==> !Failed(failing, old(ops), ops))
      ensures PassedThrough(old(seen), seen, old(files), old(files))
    {
      var n := 0;
      assert files[p] + bytes[..0] == files[p];
      while n < |bytes|
        invariant 0 <= n <= |bytes|
        invariant p in files && files == old(files)[p := old(files[p]) + bytes[..n]]
        invariant ops >= old(ops) && !Failed(failing, old(ops), ops)
        invariant PassedThrough(old(seen), seen, old(files), old(files))
      {
        var chunk := Next();
        if !chunk {
          assert failing(ops - 1);
          return false;
        }
        var m :| n < m <= |bytes|;
        files := files[p := files[p] + bytes[n..m]];
        assert old(files[p]) + bytes[..n] + bytes[n..m] == old(files[p]) + bytes[..m];
        TempIsNoRecord(old(files), p, files[p]);
        seen := seen + [files];
        n := m;
      }
      assert bytes[..n] == bytes;
      ok := true;
    }

    method SyncAll() returns (ok: bool)
      modifies this`ops
      ensures ops == old(ops) + 1 && ok == !failing(old(ops))
    {
      ok := Next();
    }

    /** Atomic: `to` has its old content or all of the new one. */
    method Rename(from: Path, to: Path) returns (ok: bool)
      modifies this
      ensures ops == old(ops) + 1
      ensures ok <==> !failing(old(ops)) && from in old(files)
      ensures files == if ok then (old(files) - {from})[to := old(files)[from]] else old(files)
      ensures seen == old(seen) + [files]
    {
      ok := Next();
      if from !in files {
        ok := false;
      }
      if ok {
        files := (files - {from})[to := files[from]];
      }
      seen := seen + [files];
    }

    /** Best effort: the caller ignores whether it worked. */
    method Remove(p: Path)
      modifies this
      ensures ops == old(ops) + 1
      ensures files == if failing(old(ops)) then old(files) else old(files) - {p}
      ensures seen == old(seen) + [files]
    {
      var ok := Next();
      if ok {
        files := files - {p};
      }
      seen := seen + [files];
    }

    /** Creates, writes and syncs a temporary file; no record changes meanwhile. */
    method WriteTemp(tmp: Path, bytes: Bytes) returns (ok: bool)
      requires IsTempName(tmp.name)
      modifies this
      ensures Records(files) == Records(old(files))
      ensures ok ==> tmp !in old(files) && files == old(files)[tmp := bytes]
      ensures ops >= old(ops) && (ok <==> !Failed(failing, old(ops), ops) && tmp !in old(files))
      ensures PassedThrough(old(seen), seen, old(files), old(files))
    {
      hide Records, Failed;
      ok := CreateNew(tmp);
      TempIsNoRecord(old(files), tmp, []);
      OneFailed(failing, old(ops));
      if ok {
        label created:
        ok := WriteAll(tmp, bytes);
        FailedSplits(failing, old(ops), old(ops) + 1, ops);
        TempIsNoRecord(old@created(files), tmp, files[tmp]);
        if ok {
          assert files[tmp] == [] + bytes == bytes;
          ok := SyncAll();
          OneFailed(failing, ops - 1);
          FailedSplits(failing, old(ops), ops - 1, ops);
        }
      }
    }

    /** Writes `bytes` to `p` by way of a fresh temporary file. Whatever fails, and
        wherever the process dies, the records are those before or those after:
        never half a file, and never a change to another path. It fails only if an
        operation does, or if the temporary name drawn is taken. */
    method WriteAtomic(p: Path, bytes: Bytes) returns (r: StoreResult<()>)
      requires !IsTempName(p.name)
      modifies this
      ensures Records(files) == (if r.Ok? then Records(old(files))[p := bytes] else Records(old(files)))
      ensures r.Ok? ==> files == old(files)[p := bytes]
      ensures ops >= old(ops)
      ensures r.Err? <==> Failed(failing, old(ops), ops) || TempPath(p, entropy(old(ops))[..8]) in old(files)
      ensures r.Err? ==> Failed(failing, old(ops), ops) || StrayTemp(old(files), p)
      ensures PassedThrough(old(seen), seen, old(files), files)
    {
      hide Records, TempPath, Failed;
      var random := Random();
      OneFailed(failing, old(ops));
      if random.None? {
        return Err(IoError);
      }
      ghost var start := ops;
      var nonce: Nonce := random.value[..8];
      var tmp := TempPath(p, nonce);
      TempPathIsTemp(p, nonce);
      var ok := WriteTemp(tmp, bytes);
      ghost var written := ops;
      FailedSplits(failing, old(ops), start, written);
      if ok {
        RenamePublishes(files, tmp, p, bytes);
        ok := Rename(tmp, p);
        OneFailed(failing, written);
        FailedSplits(failing, old(ops), written, ops);
        if !ok {
          FailedWithin(failing, old(ops), written, ops, ops + 1);
        }
      } else if tmp !in old(files) {
        FailedWithin(failing, old(ops), start, ops, ops + 1);
      } else {
        assert StrayTemp(old(files), p);
      }
      if !ok {
        TempIsNoRecord(files, tmp, []);
        Remove(tmp);
        return Err(IoError);
      }
      r := Ok(());
    }
  }
}
