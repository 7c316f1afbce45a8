/** The manifest end to end: every edit is encoded as a record; recovery decodes the records and replays them
    through one builder. */
module Manifest {
  import opened Keys
  import opened Meaning
  import opened Coding
  import opened Versions
  import opened VersionSteps
  import opened VersionEdit
  import opened VersionBuilder

  // ----- internal keys as bytes

  /** The user key, then the tag as a fixed64. */
  function EncodeKey(k: InternalKey): (b: Bytes)
    ensures |b| == |k.user| + 8
  {
    k.user + Fixed(k.Tag(), 8)
  }

  function DecodeKey(b: Bytes): (k: InternalKey)
    requires |b| >= 8
  {
    var tag := Unfixed(b[|b| - 8..]);
    UnfixedBound(b[|b| - 8..]);
    FixedLimits();
    InternalKey(b[..|b| - 8], tag / 256, tag % 256)
  }

  lemma KeyRoundTrip(k: InternalKey)
    ensures DecodeKey(EncodeKey(k)) == k
  {
    var b := EncodeKey(k);
    assert b[|b| - 8..] == Fixed(k.Tag(), 8) && b[..|b| - 8] == k.user;
    FixedLimits();
    FixedRoundTrip(k.Tag(), 8);
  }

  // ----- files and their metadata

  function MetaOf(f: File): (m: Meta) { Meta(f.number, f.size, EncodeKey(f.smallest), EncodeKey(f.largest)) }

  /** The file the metadata names; its entries are in the table file of that number. */
  function FileOf(m: Meta, table: nat -> seq<Entry>): (f: File)
    requires |m.smallest| >= 8 && |m.largest| >= 8
  {
    File(m.number, m.size, DecodeKey(m.smallest), DecodeKey(m.largest), table(m.number))
  }

  lemma FileRoundTrip(f: File, table: nat -> seq<Entry>)
    requires f.entries == table(f.number)
    ensures FileOf(MetaOf(f), table) == f
  {
    KeyRoundTrip(f.smallest);
    KeyRoundTrip(f.largest);
  }

  function Metas(as_: seq<(nat, File)>): (r: seq<(nat, Meta)>)
    ensures |r| == |as_| && forall i :: 0 <= i < |as_| ==> r[i] == (as_[i].0, MetaOf(as_[i].1))
  {
    seq(|as_|, i requires 0 <= i < |as_| => (as_[i].0, MetaOf(as_[i].1)))
  }

  predicate KeysReadable(e: Edit) {
    forall i :: 0 <= i < |e.added| ==> |e.added[i].1.smallest| >= 8 && |e.added[i].1.largest| >= 8
  }

  /** What Builder::Apply sees of a decoded edit. */
  function FileEditOf(e: Edit, table: nat -> seq<Entry>): (r: FileEdit)
    requires KeysReadable(e)
  {
    FileEdit(e.deleted, seq(|e.added|, i requires 0 <= i < |e.added| => (e.added[i].0, FileOf(e.added[i].1, table))))
  }

  /** An edit with the given file changes and any other fields. */
  function WithFiles(header: Edit, fe: FileEdit): (e: Edit) { header.(deleted := fe.deleted, added := Metas(fe.added)) }

  ghost predicate Stored(fe: FileEdit, table: nat -> seq<Entry>) {
    forall i :: 0 <= i < |fe.added| ==> fe.added[i].1.entries == table(fe.added[i].1.number)
  }

  lemma FileEditRoundTrip(header: Edit, fe: FileEdit, table: nat -> seq<Entry>)
    requires Stored(fe, table)
    ensures KeysReadable(WithFiles(header, fe)) && FileEditOf(WithFiles(header, fe), table) == fe
  {
    forall i | 0 <= i < |fe.added|
      ensures FileOf(MetaOf(fe.added[i].1), table) == fe.added[i].1
    {
      FileRoundTrip(fe.added[i].1, table);
    }
  }

  // ----- writing and recovering

  ghost predicate Writable(headers: seq<Edit>, edits: seq<FileEdit>, table: nat -> seq<Entry>) {
    && |headers| == |edits|
    && forall k {:trigger Record(headers, edits, k)} :: 0 <= k < |edits| ==> EditOk(Record(headers, edits, k)) && Stored(edits[k], table)
  }

  function Record(headers: seq<Edit>, edits: seq<FileEdit>, k: nat): (e: Edit)
    requires k < |edits| == |headers|
  {
    WithFiles(headers[k], edits[k])
  }

  lemma TakeOneEdit(edits: seq<FileEdit>, k: nat)
    requires k < |edits|
    ensures edits[..k] + [edits[k]] == edits[..k + 1]
  {
  }

  /** LogAndApply's record for one edit, and what VersionSet::Recover reads from it. */
  method ThroughRecord(header: Edit, fe: FileEdit, table: nat -> seq<Entry>) returns (r: FileEdit)
    requires EditOk(WithFiles(header, fe)) && Stored(fe, table)
    ensures r == fe
  {
    var record := EncodeTo(WithFiles(header, fe));
    var e := DecodeFrom(record);
    EditRoundTrip(WithFiles(header, fe));
    FileEditRoundTrip(header, fe, table);
    r := FileEditOf(e.value, table);
  }

  /** Every edit through its record. */
  method ThroughManifest(headers: seq<Edit>, edits: seq<FileEdit>, table: nat -> seq<Entry>) returns (r: seq<FileEdit>)
    requires Writable(headers, edits, table)
    ensures r == edits
  {
    r := [];
    for k := 0 to |edits|
      invariant r == edits[..k]
    {
      assert EditOk(Record(headers, edits, k)) && Stored(edits[k], table);
      var fe := ThroughRecord(headers[k], edits[k], table);
      TakeOneEdit(edits, k);
      r := r + [fe];
    }
  }

  /** Whatever was logged, recovery lists the files the running database listed if every edit adds cleanly, and gives the
      very same version if no file number comes back. */
  method RecoverEqualsRun(base: Version, headers: seq<Edit>, edits: seq<FileEdit>, table: nat -> seq<Entry>)
    returns (recovered: Version, run: seq<Version>)
    requires Sortings(base) && EditsOk(edits) && Writable(headers, edits, table)
    ensures Ran(run, edits) && run[0] == base && ReplayedVersion(recovered, base, edits, |edits|)
    ensures FaithfulEdits(base, edits) ==> SameFiles(recovered, run[|edits|])
    ensures Strict(base) && NoReadds(base, edits) ==> recovered == run[|edits|]
  {
    var replays;
    run, replays := RunAndRecover(base, edits);
    var decoded := ThroughManifest(headers, edits, table);
    recovered := Replay(base, decoded, |decoded|);
    RecoveryAtEnd(run, replays, edits, recovered);
  }
}
