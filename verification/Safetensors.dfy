/**
  The safetensors container: eight bytes of little-endian header length, a JSON header, the payload.
  Rewriting a shard renames the header's entries and copies the payload under them.
  */
module Safetensors {
  import opened Wrappers
  import opened JsonValues

  newtype byte = x: int | 0 <= x < 256

  type Bytes = seq<byte>

  const METADATA_KEY := "__metadata__"
  const OFFSETS_KEY := "data_offsets"
  const LENGTH_BYTES: nat := 8
  const LENGTH_LIMIT: nat := 0x1_0000_0000_0000_0000
  const COPY_BUFFER_BYTES: nat := 8 * 1024 * 1024
  const SPACE: byte := 32

  // ---------------------------------------------------------------- little-endian numbers

  function LittleEndian(n: nat, width: nat): (b: Bytes)
    ensures |b| == width
    decreases width
  {
    if width == 0 then [] else [(n % 256) as byte] + LittleEndian(n / 256, width - 1)
  }

  function FromLittleEndian(b: Bytes): nat {
    if |b| == 0 then 0 else b[0] as nat + 256 * FromLittleEndian(b[1..])
  }

  function Power256(width: nat): (p: nat)
    ensures p > 0
  {
    if width == 0 then 1 else 256 * Power256(width - 1)
  }

  lemma {:induction false} ReadsBackNumber(n: nat, width: nat)
    requires n < Power256(width)
    ensures FromLittleEndian(LittleEndian(n, width)) == n
    decreases width
  {
    if width > 0 {
      ReadsBackNumber(n / 256, width - 1);
      assert LittleEndian(n, width)[1..] == LittleEndian(n / 256, width - 1);
    }
  }

  lemma LowAndHigh(low: nat, high: nat)
    requires low < 256
    ensures (low + 256 * high) % 256 == low && (low + 256 * high) / 256 == high
  {}

  lemma PowerStep(width: nat, low: nat, high: nat)
    requires width > 0 && low < 256 && high < Power256(width - 1)
    ensures low + 256 * high < Power256(width)
  {}

  lemma {:induction false} ReadsBackBytes(b: Bytes)
    ensures FromLittleEndian(b) < Power256(|b|) && LittleEndian(FromLittleEndian(b), |b|) == b
  {
    if |b| > 0 {
      hide Power256;
      ReadsBackBytes(b[1..]);
      LowAndHigh(b[0] as nat, FromLittleEndian(b[1..]));
      PowerStep(|b|, b[0] as nat, FromLittleEndian(b[1..]));
      assert b == [b[0]] + b[1..];
    } else {
      assert Power256(0) == 1;
    }
  }

  lemma LengthFits(n: nat)
    requires n < LENGTH_LIMIT
    ensures FromLittleEndian(LittleEndian(n, LENGTH_BYTES)) == n
  {
    Power256OfEight();
    ReadsBackNumber(n, LENGTH_BYTES);
  }

  lemma Power256OfEight()
    ensures Power256(LENGTH_BYTES) == LENGTH_LIMIT
  {
    assert Power256(4) == 0x1_0000_0000;
    assert Power256(8) == 256 * (256 * (256 * (256 * Power256(4))));
  }

  // ---------------------------------------------------------------- reading a header

  datatype ShardError = Truncated | HeaderTooLarge | Unreadable | NotAnObject | Collision(name: string) | LengthOverflow

  /**
    `json.loads` on bytes, None for its errors, compact `json.dumps` encoded in UTF-8, and the values
    that JSON text carries exactly.
    */
  datatype Codec = Codec(loads: Bytes -> Option<Json>, dumps: Members -> Bytes, carries: Json -> bool)

  function Spaces(n: nat): (b: Bytes)
    ensures |b| == n
  {
    if n == 0 then [] else [SPACE] + Spaces(n - 1)
  }

  ghost predicate AllCarried(codec: Codec, m: Members) { forall i | 0 <= i < |m| :: codec.carries(m[i].value) }

  /** A dictionary read from JSON has distinct keys and values that JSON carries. */
  ghost predicate IsDictionary(codec: Codec, m: Members) { DistinctKeys(m) && AllCarried(codec, m) }

  /** What is used of JSON: for such dictionaries, printing, padding with spaces and reading is the identity. */
  ghost predicate Faithful(codec: Codec) {
    && (forall b ::
          codec.loads(b).Some? && codec.loads(b).value.Obj? ==> IsDictionary(codec, codec.loads(b).value.members))
    && (forall m, n: nat | IsDictionary(codec, m) :: codec.loads(codec.dumps(m) + Spaces(n)) == Some(Obj(m)))
  }

  datatype Header = Header(entries: Members, start: nat)

  /** `_read_safetensors_header`. */
  function ReadHeader(codec: Codec, file: Bytes): (r: Result<Header, ShardError>)
    ensures r.Success? ==> LENGTH_BYTES <= r.value.start <= |file|
  {
    if |file| < LENGTH_BYTES then Failure(Truncated)
    else
      var length := FromLittleEndian(file[..LENGTH_BYTES]);
      if length > |file| - LENGTH_BYTES then Failure(HeaderTooLarge)
      else
        match codec.loads(file[LENGTH_BYTES..LENGTH_BYTES + length])
        case None => Failure(Unreadable)
        case Some(Obj(entries)) => Success(Header(entries, LENGTH_BYTES + length))
        case Some(_) => Failure(NotAnObject)
  }

  /** The bytes an entry points at, relative to where the payload starts. */
  function TensorBytes(file: Bytes, start: nat, entry: Json): Option<Bytes>
    requires start <= |file|
  {
    if !entry.Obj? then None
    else
      match Get(entry.members, OFFSETS_KEY)
      case Some(Arr(offsets)) =>
        if |offsets| == 2 && offsets[0].Int? && offsets[1].Int?
           && 0 <= offsets[0].i <= offsets[1].i <= |file| - start
        then Some(file[start + offsets[0].i..start + offsets[1].i])
        else None
      case _ => None
  }

  // ---------------------------------------------------------------- renaming a shard's entries

  function NewKey(rename: string -> string, key: string): string {
    if key == METADATA_KEY then key else rename(key)
  }

  /** The renamed header. A new name that is already taken is an error, except for the metadata entry. */
  function RenamedEntries(rename: string -> string, entries: Members, n: nat): (r: Result<Members, ShardError>)
    requires n <= |entries|
  {
    if n == 0 then Success([])
    else
      match RenamedEntries(rename, entries, n - 1)
      case Failure(e) => Failure(e)
      case Success(renamed) =>
        var Member(key, value) := entries[n - 1];
        var newKey := NewKey(rename, key);
        if key != METADATA_KEY && newKey in Keys(renamed) then Failure(Collision(key))
        else Success(Put(renamed, newKey, value))
  }

  function Padding(n: nat): (p: nat)
    ensures p < 8 && (n + p) % 8 == 0
  {
    (8 - n % 8) % 8
  }

  function PaddedHeader(codec: Codec, entries: Members): (b: Bytes)
    ensures |b| % 8 == 0
  {
    var text := codec.dumps(entries);
    text + Spaces(Padding(|text|))
  }

  /** `_rewrite_safetensors_names`. */
  function RewrittenShard(codec: Codec, rename: string -> string, file: Bytes): Result<Bytes, ShardError> {
    match ReadHeader(codec, file)
    case Failure(e) => Failure(e)
    case Success(header) =>
      match RenamedEntries(rename, header.entries, |header.entries|)
      case Failure(e) => Failure(e)
      case Success(renamed) =>
        var text := PaddedHeader(codec, renamed);
        if |text| >= LENGTH_LIMIT then Failure(LengthOverflow)
        else Success(LittleEndian(|text|, LENGTH_BYTES) + text + file[header.start..])
  }

  /** Streams the payload, one buffer at a time. */
  method CopyPayload(file: Bytes, start: nat, target: Bytes) returns (written: Bytes)
    requires start <= |file|
    ensures written == target + file[start..]
  {
    written := target;
    var position := start;
    while position < |file|
      invariant start <= position <= |file|
      invariant written == target + file[start..position]
    {
      var end := if position + COPY_BUFFER_BYTES <= |file| then position + COPY_BUFFER_BYTES else |file|;
      assert file[start..end] == file[start..position] + file[position..end];
      written := written + file[position..end];
      position := end;
    }
    assert file[start..position] == file[start..];
  }

  method RewriteSafetensorsNames(codec: Codec, rename: string -> string, source: Bytes)
    returns (target: Result<Bytes, ShardError>)
    ensures target == RewrittenShard(codec, rename, source)
  {
    var read := ReadHeader(codec, source);
    if read.Failure? { return Failure(read.error); }
    var entries := read.value.entries;
    var renamed: Members := [];
    for i := 0 to |entries|
      invariant RenamedEntries(rename, entries, i) == Success(renamed)
    {
      var Member(key, value) := entries[i];
      var newKey := NewKey(rename, key);
      if key != METADATA_KEY && newKey in Keys(renamed) {
        CollisionIsFinal(rename, entries, i + 1, |entries|);
        return Failure(Collision(key));
      }
      renamed := Put(renamed, newKey, value);
    }
    var text := PaddedHeader(codec, renamed);
    if |text| >= LENGTH_LIMIT { return Failure(LengthOverflow); }
    var written := CopyPayload(source, read.value.start, LittleEndian(|text|, LENGTH_BYTES) + text);
    target := Success(written);
  }

  lemma {:induction false} CollisionIsFinal(rename: string -> string, entries: Members, n: nat, m: nat)
    requires n <= m <= |entries| && RenamedEntries(rename, entries, n).Failure?
    ensures RenamedEntries(rename, entries, m) == RenamedEntries(rename, entries, n)
  {
    if n < m { CollisionIsFinal(rename, entries, n, m - 1); }
  }

  // ---------------------------------------------------------------- what the rewrite keeps

  ghost predicate KeepsMetadataApart(rename: string -> string) {
    forall key | key != METADATA_KEY :: rename(key) != METADATA_KEY
  }

  /** Entry by entry, renamed and with its value. */
  ghost predicate RenamedOneByOne(rename: string -> string, entries: Members, n: nat, renamed: Members)
    requires n <= |entries|
  {
    && |renamed| == n && DistinctKeys(renamed)
    && forall i | 0 <= i < n :: renamed[i] == Member(NewKey(rename, entries[i].key), entries[i].value)
  }

  /** Renaming succeeds exactly when no two new names meet, and then changes nothing but names. */
  lemma {:induction false} RenamingSucceedsExactly(rename: string -> string, entries: Members, n: nat)
    requires n <= |entries| && DistinctKeys(entries) && KeepsMetadataApart(rename)
    ensures var r := RenamedEntries(rename, entries, n);
      && (r.Success? <==> forall i, j | 0 <= i < j < n ::
        NewKey(rename, entries[i].key) != NewKey(rename, entries[j].key))
      && (r.Success? ==> RenamedOneByOne(rename, entries, n, r.value))
      && (r.Failure? ==> r.error.Collision?)
  {
    if n > 0 {
      RenamingSucceedsExactly(rename, entries, n - 1);
      var before := RenamedEntries(rename, entries, n - 1);
      if before.Success? {
        RenamingStep(rename, entries, n, before.value);
      } else {
        var i, j :| 0 <= i < j < n - 1 && NewKey(rename, entries[i].key) == NewKey(rename, entries[j].key);
      }
    }
  }

  lemma RenamingStep(rename: string -> string, entries: Members, n: nat, renamed: Members)
    requires 0 < n <= |entries| && DistinctKeys(entries) && KeepsMetadataApart(rename)
    requires RenamedOneByOne(rename, entries, n - 1, renamed)
    ensures var newKey := NewKey(rename, entries[n - 1].key);
      && (newKey in Keys(renamed) <==> exists i :: 0 <= i < n - 1 && NewKey(rename, entries[i].key) == newKey)
      && (entries[n - 1].key == METADATA_KEY ==> newKey !in Keys(renamed))
      && (newKey !in Keys(renamed) ==>
            RenamedOneByOne(rename, entries, n, Put(renamed, newKey, entries[n - 1].value)))
  {
    var newKey := NewKey(rename, entries[n - 1].key);
    if newKey in Keys(renamed) {
      var i :| 0 <= i < |renamed| && renamed[i].key == newKey;
      assert NewKey(rename, entries[i].key) == newKey;
    } else {
      PutNew(renamed, newKey, entries[n - 1].value);
      forall i | 0 <= i < n - 1 ensures renamed[i].key != newKey { assert renamed[i].key in Keys(renamed); }
    }
    forall i | 0 <= i < n - 1 && NewKey(rename, entries[i].key) == newKey ensures newKey in Keys(renamed) {
      assert renamed[i].key == newKey;
    }
  }

  lemma RereadHeader(codec: Codec, entries: Members, payload: Bytes)
    requires Faithful(codec) && IsDictionary(codec, entries) && |PaddedHeader(codec, entries)| < LENGTH_LIMIT
    ensures var text := PaddedHeader(codec, entries);
      ReadHeader(codec, LittleEndian(|text|, LENGTH_BYTES) + text + payload)
      == Success(Header(entries, LENGTH_BYTES + |text|))
  {
    var text := PaddedHeader(codec, entries);
    var length := LittleEndian(|text|, LENGTH_BYTES);
    var file := length + text + payload;
    assert file[..LENGTH_BYTES] == length;
    assert file[LENGTH_BYTES..LENGTH_BYTES + |text|] == text;
    LengthFits(|text|);
  }

  /**
    Re-reading a rewritten shard gives the renamed header; its payload starts on an eight-byte
    boundary and is the old one, and every tensor's bytes are found under its new name.
    */
  lemma RewritePreservesTensors(codec: Codec, rename: string -> string, file: Bytes)
    requires Faithful(codec) && KeepsMetadataApart(rename)
    requires RewrittenShard(codec, rename, file).Success?
    ensures var out := RewrittenShard(codec, rename, file).value;
      var was := ReadHeader(codec, file);
      var now := ReadHeader(codec, out);
      && was.Success? && now.Success? && now.value.start % 8 == 0
      && RenamedOneByOne(rename, was.value.entries, |was.value.entries|, now.value.entries)
      && out[now.value.start..] == file[was.value.start..]
      && forall entry :: TensorBytes(out, now.value.start, entry) == TensorBytes(file, was.value.start, entry)
  {
    hide PaddedHeader, RenamedEntries, RewrittenShard, ReadHeader, LittleEndian, TensorBytes, Faithful;
    ShardParts(codec, rename, file);
    HeaderIsDictionary(codec, file);
    var header := ReadHeader(codec, file).value;
    RenamingSucceedsExactly(rename, header.entries, |header.entries|);
    var renamed := RenamedEntries(rename, header.entries, |header.entries|).value;
    var text := PaddedHeader(codec, renamed);
    var out := RewrittenShard(codec, rename, file).value;
    var payload := file[header.start..];
    RereadHeader(codec, renamed, payload);
    var start := LENGTH_BYTES + |text|;
    assert out[start..] == payload;
    forall entry ensures TensorBytes(out, start, entry) == TensorBytes(file, header.start, entry) {
      SamePayloadSameBytes(out, start, file, header.start, entry);
    }
  }

  lemma ShardParts(codec: Codec, rename: string -> string, file: Bytes)
    requires RewrittenShard(codec, rename, file).Success?
    ensures ReadHeader(codec, file).Success?
    ensures var header := ReadHeader(codec, file).value;
      var renamed := RenamedEntries(rename, header.entries, |header.entries|);
      && renamed.Success? && |PaddedHeader(codec, renamed.value)| < LENGTH_LIMIT
      && RewrittenShard(codec, rename, file).value
         == LittleEndian(|PaddedHeader(codec, renamed.value)|, LENGTH_BYTES) + PaddedHeader(codec, renamed.value)
            + file[header.start..]
  {
    hide PaddedHeader, RenamedEntries, ReadHeader, LittleEndian;
  }

  lemma HeaderIsDictionary(codec: Codec, file: Bytes)
    requires Faithful(codec) && ReadHeader(codec, file).Success?
    ensures IsDictionary(codec, ReadHeader(codec, file).value.entries)
  {
    hide FromLittleEndian;
  }

  lemma SamePayloadSameBytes(a: Bytes, s: nat, b: Bytes, t: nat, entry: Json)
    requires s <= |a| && t <= |b| && a[s..] == b[t..]
    ensures TensorBytes(a, s, entry) == TensorBytes(b, t, entry)
  {
    assert |a| - s == |b| - t by { assert |a[s..]| == |b[t..]|; }
    if TensorBytes(a, s, entry).Some? {
      var offsets := Get(entry.members, OFFSETS_KEY).value.items;
      var lo, hi := offsets[0].i, offsets[1].i;
      assert a[s + lo..s + hi] == a[s..][lo..hi];
      assert b[t + lo..t + hi] == b[t..][lo..hi];
    }
  }

  /** A tensor is looked up under its new name where it was under the old one. */
  lemma RenamedEntryIsFound(rename: string -> string, entries: Members, renamed: Members, key: string)
    requires RenamedOneByOne(rename, entries, |entries|, renamed) && DistinctKeys(entries) && key in Keys(entries)
    ensures NewKey(rename, key) in Keys(renamed) && Lookup(renamed, NewKey(rename, key)) == Lookup(entries, key)
  {
    var i :| 0 <= i < |entries| && entries[i] == Member(key, Lookup(entries, key));
    LookupAt(renamed, i);
  }
}
