/**
 * The meta-mapping files a build publishes next to its mapping archives: text
 * protos listing `mappings: { identifier: "..." location: "..." type: R8 }`
 * blocks, one per mapping file (RetraceWrapper.java:777-845).
 */
module MetaMapping {
  import opened Wrappers
  import opened JavaString
  import opened MapIdentity

  const MappingsKey: string := "mappings:"
  const IdentifierKey: string := "identifier:"
  const LocationKey: string := "location:"
  const TypeKey: string := "type:"
  /** The only mapping type the retracer accepts. */
  const R8Type: string := "R8"
  /** Ids of accepted mappings are SHA-256 hashes written in hex. */
  const IdLength: nat := 64

  /** A line that opens a block: trimmed, it starts with "mappings:" and ends with '{'. */
  predicate IsBlockStart(line: string) {
    StartsWith(Trim(line), MappingsKey) && EndsWith(Trim(line), "{")
  }

  /** The fields read so far from a block; each later line of a kind overrides an earlier one. */
  datatype Fields = Fields(id: Option<string>, location: Option<string>, kind: Option<string>)

  const NoFields: Fields := Fields(None, None, None)

  /** An accepted block: a mapping file of the build, identified by `id`, stored in the archive under `location`. */
  datatype MappingEntry = MappingEntry(id: string, location: string)

  /**
   * Read the block body from line `j` on: each trimmed line is a closing '}',
   * one of the three keys, or an error. Gives the fields and the index just
   * past the '}' (or the number of lines when the block is never closed).
   */
  function ScanBlock(lines: seq<string>, j: nat, f: Fields): (r: Result<(Fields, nat), MetaError>)
    requires j <= |lines|
    ensures r.Success? ==> j <= r.value.1 <= |lines|
    ensures r.Success? && j < |lines| ==> j < r.value.1
    decreases |lines| - j
  {
    if j == |lines| then Success((f, j))
    else
      var sub := Trim(lines[j]);
      if StartsWith(sub, "}") then Success((f, j + 1))
      else if StartsWith(sub, IdentifierKey) then
        match GetQuotedString(sub)
        case Failure(e) => Failure(e)
        case Success(v) => ScanBlock(lines, j + 1, f.(id := Some(v)))
      else if StartsWith(sub, LocationKey) then
        match GetQuotedString(sub)
        case Failure(e) => Failure(e)
        case Success(v) => ScanBlock(lines, j + 1, f.(location := Some(v)))
      else if StartsWith(sub, TypeKey) then
        ScanBlock(lines, j + 1, f.(kind := Some(Trim(sub[|TypeKey|..]))))
      else Failure(NoMatch)
  }

  /** The entry a block describes, when it has all three fields, type R8 and a 64-character id. */
  function EntryOf(f: Fields): (r: Option<MappingEntry>)
    ensures r.Some? <==> f.id.Some? && f.location.Some? && f.kind == Some(R8Type) && |f.id.value| == IdLength
    ensures r.Some? ==> r.value == MappingEntry(f.id.value, f.location.value)
  {
    if f.id.Some? && f.location.Some? && f.kind.Some? && f.kind.value == R8Type && |f.id.value| == IdLength
    then Some(MappingEntry(f.id.value, f.location.value))
    else None
  }

  /** The message of a rejected block: a heading naming its first line, then the block's lines as read. */
  function InvalidMessage(lines: seq<string>, i: nat, j: nat): seq<string>
    requires i <= j <= |lines|
  {
    ["Invalid mapping entry starting at line " + NatToString(i) + ":"] + lines[i..j]
  }

  /**
   * The entries of the blocks opening at line `i` or later, in order. Every
   * line is examined as a possible block start, those inside a block included.
   */
  function ParseFrom(lines: seq<string>, i: nat): Result<seq<MappingEntry>, MetaError>
    requires i <= |lines|
    decreases |lines| - i
  {
    if i == |lines| then Success([])
    else if !IsBlockStart(lines[i]) then ParseFrom(lines, i + 1)
    else
      match ScanBlock(lines, i + 1, NoFields)
      case Failure(e) => Failure(e)
      case Success(scanned) =>
        match EntryOf(scanned.0)
        case None => Failure(InvalidEntry(InvalidMessage(lines, i, scanned.1)))
        case Some(entry) => Prepend(entry, ParseFrom(lines, i + 1))
  }

  function Prepend(entry: MappingEntry, r: Result<seq<MappingEntry>, MetaError>): Result<seq<MappingEntry>, MetaError>
  {
    match r
    case Failure(e) => Failure(e)
    case Success(rest) => Success([entry] + rest)
  }

  function PrependAll(entries: seq<MappingEntry>, r: Result<seq<MappingEntry>, MetaError>): Result<seq<MappingEntry>, MetaError>
  {
    match r
    case Failure(e) => Failure(e)
    case Success(rest) => Success(entries + rest)
  }

  /** The entries of a whole meta-mapping file. */
  function ParseMetaMapping(lines: seq<string>): Result<seq<MappingEntry>, MetaError>
  {
    ParseFrom(lines, 0)
  }

  /**
   * The loop of populateRemoteMappingFileMap over one meta-mapping file
   * (RetraceWrapper.java:793-832): the outer index advances one line at a
   * time; ReadBlock is its inner loop over a block body.
   */
  method ReadMetaMapping(lines: seq<string>) returns (r: Result<seq<MappingEntry>, MetaError>)
    ensures r == ParseMetaMapping(lines)
  {
    var entries: seq<MappingEntry> := [];
    var i := 0;
    assert PrependAll(entries, ParseFrom(lines, 0)) == ParseFrom(lines, 0) by {
      if ParseFrom(lines, 0).Success? {
        assert entries + ParseFrom(lines, 0).value == ParseFrom(lines, 0).value;
      }
    }
    while i < |lines|
      invariant i <= |lines|
      invariant ParseMetaMapping(lines) == PrependAll(entries, ParseFrom(lines, i))
      decreases |lines| - i
    {
      if IsBlockStart(lines[i]) {
        var scanned := ReadBlock(lines, i + 1);
        if scanned.Failure? {
          assert ParseFrom(lines, i) == Failure(scanned.error);
          return Failure(scanned.error);
        }
        var entry := EntryOf(scanned.value.0);
        if entry.None? {
          assert ParseFrom(lines, i) == Failure(InvalidEntry(InvalidMessage(lines, i, scanned.value.1)));
          return Failure(InvalidEntry(InvalidMessage(lines, i, scanned.value.1)));
        }
        assert ParseFrom(lines, i) == Prepend(entry.value, ParseFrom(lines, i + 1));
        PrependAllStep(entries, entry.value, ParseFrom(lines, i + 1));
        entries := entries + [entry.value];
      } else {
        assert ParseFrom(lines, i) == ParseFrom(lines, i + 1);
      }
      i := i + 1;
    }
    assert ParseFrom(lines, i) == Success([]);
    assert entries + [] == entries;
    r := Success(entries);
  }

  /** The inner loop of populateRemoteMappingFileMap: the body of the block whose first line precedes `start`. */
  method ReadBlock(lines: seq<string>, start: nat) returns (r: Result<(Fields, nat), MetaError>)
    requires start <= |lines|
    ensures r == ScanBlock(lines, start, NoFields)
  {
    var f := NoFields;
    var j := start;
    while j < |lines|
      invariant start <= j <= |lines|
      invariant ScanBlock(lines, start, NoFields) == ScanBlock(lines, j, f)
      decreases |lines| - j
    {
      var sub := Trim(lines[j]);
      ghost var before := ScanBlock(lines, j, f);
      j := j + 1;
      if StartsWith(sub, "}") {
        return Success((f, j));
      } else if StartsWith(sub, IdentifierKey) {
        var q := GetQuotedString(sub);
        if q.Failure? {
          return Failure(q.error);
        }
        f := f.(id := Some(q.value));
        assert before == ScanBlock(lines, j, f);
      } else if StartsWith(sub, LocationKey) {
        var q := GetQuotedString(sub);
        if q.Failure? {
          return Failure(q.error);
        }
        f := f.(location := Some(q.value));
        assert before == ScanBlock(lines, j, f);
      } else if StartsWith(sub, TypeKey) {
        f := f.(kind := Some(Trim(sub[|TypeKey|..])));
        assert before == ScanBlock(lines, j, f);
      } else {
        return Failure(NoMatch);
      }
    }
    return Success((f, j));
  }

  lemma PrependAllStep(entries: seq<MappingEntry>, entry: MappingEntry, r: Result<seq<MappingEntry>, MetaError>)
    ensures PrependAll(entries, Prepend(entry, r)) == PrependAll(entries + [entry], r)
  {
    if r.Success? {
      assert entries + ([entry] + r.value) == entries + [entry] + r.value;
    }
  }

  /** Every accepted entry has a 64-character id. */
  lemma {:induction false} EntriesHaveFullIds(lines: seq<string>, i: nat)
    requires i <= |lines|
    requires ParseFrom(lines, i).Success?
    ensures forall e :: e in ParseFrom(lines, i).value ==> |e.id| == IdLength
    decreases |lines| - i
  {
    if i < |lines| {
      if IsBlockStart(lines[i]) {
        var scanned := ScanBlock(lines, i + 1, NoFields).value;
        var entry := EntryOf(scanned.0).value;
        assert ParseFrom(lines, i) == Prepend(entry, ParseFrom(lines, i + 1));
      } else {
        assert ParseFrom(lines, i) == ParseFrom(lines, i + 1);
      }
      EntriesHaveFullIds(lines, i + 1);
    }
  }

  /** A file with no block start yields no entries and no error. */
  lemma {:induction false} NoBlocksNoEntries(lines: seq<string>, i: nat)
    requires i <= |lines|
    requires forall k :: i <= k < |lines| ==> !IsBlockStart(lines[k])
    ensures ParseFrom(lines, i) == Success([])
    decreases |lines| - i
  {
    if i < |lines| {
      assert ParseFrom(lines, i) == ParseFrom(lines, i + 1);
      NoBlocksNoEntries(lines, i + 1);
    }
  }

  /** A line that closes a block: trimmed, it starts with '}'. */
  predicate IsClosing(line: string) {
    StartsWith(Trim(line), "}")
  }

  /**
   * What reading a line of a block body fails with: nothing for a '}', a type
   * line or a quoted id or location; Malformed for an id or location line with
   * fewer than two quotes; NoMatch for any other line.
   */
  function LineError(line: string): Option<MetaError>
  {
    var sub := Trim(line);
    if StartsWith(sub, "}") then None
    else if StartsWith(sub, IdentifierKey) || StartsWith(sub, LocationKey) then
      match GetQuotedString(sub)
      case Failure(e) => Some(e)
      case Success(_) => None
    else if StartsWith(sub, TypeKey) then None
    else Some(NoMatch)
  }

  /** Where a block body read from line `j` ends: one past its first '}' line, or at the end of the file. */
  function BlockEnd(lines: seq<string>, j: nat): (e: nat)
    requires j <= |lines|
    ensures j <= e <= |lines|
    decreases |lines| - j
  {
    if j == |lines| then j
    else if IsClosing(lines[j]) then j + 1
    else BlockEnd(lines, j + 1)
  }

  /** The end of a block is one past the first '}' line from `j`, or the end of the file when there is none. */
  lemma {:induction false} BlockEndSpec(lines: seq<string>, j: nat)
    requires j <= |lines|
    ensures
      var e := BlockEnd(lines, j);
      || (e == |lines| && forall k :: j <= k < |lines| ==> !IsClosing(lines[k]))
      || (j < e && IsClosing(lines[e - 1]) && forall k :: j <= k < e - 1 ==> !IsClosing(lines[k]))
    decreases |lines| - j
  {
    if j < |lines| && !IsClosing(lines[j]) {
      BlockEndSpec(lines, j + 1);
    }
  }

  /**
   * The first line of the block body read from `j` that fails, or the block's
   * end when none does.
   */
  function FirstFail(lines: seq<string>, j: nat): (k: nat)
    requires j <= |lines|
    ensures j <= k <= BlockEnd(lines, j)
    decreases |lines| - j
  {
    if j == |lines| then j
    else if LineError(lines[j]).Some? then j
    else if IsClosing(lines[j]) then j + 1
    else FirstFail(lines, j + 1)
  }

  /** Every line before the first failing one reads well, and the first failing one fails. */
  lemma {:induction false} FirstFailSpec(lines: seq<string>, j: nat)
    requires j <= |lines|
    ensures forall m :: j <= m < FirstFail(lines, j) ==> LineError(lines[m]).None?
    ensures FirstFail(lines, j) < BlockEnd(lines, j) ==> LineError(lines[FirstFail(lines, j)]).Some?
    decreases |lines| - j
  {
    if j < |lines| && LineError(lines[j]).None? && !IsClosing(lines[j]) {
      FirstFailSpec(lines, j + 1);
    }
  }

  /** Where a block body fails is its first line that fails: one that reads well before it cannot be it. */
  lemma {:induction false} FirstFailIs(lines: seq<string>, j: nat, k: nat)
    requires j <= k < |lines| && k < BlockEnd(lines, j)
    requires forall m :: j <= m < k ==> LineError(lines[m]).None?
    requires LineError(lines[k]).Some?
    ensures FirstFail(lines, j) == k
    decreases k - j
  {
    if j < k {
      FirstFailIs(lines, j + 1, k);
    }
  }

  /**
   * Reading a block body from line `j` succeeds exactly when no line up to its
   * end fails, and then it stops at that end; otherwise it fails with the error
   * of the first line that fails.
   */
  lemma {:induction false} ScanBlockOutcome(lines: seq<string>, j: nat, f: Fields)
    requires j <= |lines|
    ensures
      var r := ScanBlock(lines, j, f);
      var first := FirstFail(lines, j);
      && (r.Success? <==> first == BlockEnd(lines, j))
      && (r.Success? ==> r.value.1 == BlockEnd(lines, j))
      && (r.Failure? ==> first < |lines| && LineError(lines[first]) == Some(r.error))
    decreases |lines| - j
  {
    if j < |lines| && LineError(lines[j]).None? && !IsClosing(lines[j]) {
      var sub := Trim(lines[j]);
      assert BlockEnd(lines, j) == BlockEnd(lines, j + 1);
      if StartsWith(sub, IdentifierKey) {
        ScanBlockOutcome(lines, j + 1, f.(id := Some(GetQuotedString(sub).value)));
      } else if StartsWith(sub, LocationKey) {
        ScanBlockOutcome(lines, j + 1, f.(location := Some(GetQuotedString(sub).value)));
      } else {
        ScanBlockOutcome(lines, j + 1, f.(kind := Some(Trim(sub[|TypeKey|..]))));
      }
    }
  }

  /** A block body without a type line leaves the type as it was. */
  lemma {:induction false} ScanKeepsKind(lines: seq<string>, j: nat, f: Fields)
    requires j <= |lines| && ScanBlock(lines, j, f).Success?
    requires forall k :: j <= k < BlockEnd(lines, j) ==> !StartsWith(Trim(lines[k]), TypeKey)
    ensures ScanBlock(lines, j, f).value.0.kind == f.kind
    decreases |lines| - j
  {
    if j < |lines| {
      var sub := Trim(lines[j]);
      if !StartsWith(sub, "}") {
        assert BlockEnd(lines, j) == BlockEnd(lines, j + 1);
        if StartsWith(sub, IdentifierKey) {
          ScanKeepsKind(lines, j + 1, f.(id := Some(GetQuotedString(sub).value)));
        } else if StartsWith(sub, LocationKey) {
          ScanKeepsKind(lines, j + 1, f.(location := Some(GetQuotedString(sub).value)));
        }
      }
    }
  }

  /** The block opening at line `i` reads well and describes an entry. */
  predicate Accepted(lines: seq<string>, i: nat)
    requires i < |lines|
  {
    var scanned := ScanBlock(lines, i + 1, NoFields);
    scanned.Success? && EntryOf(scanned.value.0).Some?
  }

  /** When every block opening between `k0` and `i` is accepted, a failure from `i` on is the failure of the whole. */
  lemma {:induction false} EarlierAccepted(lines: seq<string>, k0: nat, i: nat)
    requires k0 <= i <= |lines|
    requires forall k :: k0 <= k < i && IsBlockStart(lines[k]) ==> Accepted(lines, k)
    requires ParseFrom(lines, i).Failure?
    ensures ParseFrom(lines, k0) == ParseFrom(lines, i)
    decreases i - k0
  {
    if k0 < i {
      EarlierAccepted(lines, k0 + 1, i);
      if IsBlockStart(lines[k0]) {
        var scanned := ScanBlock(lines, k0 + 1, NoFields).value;
        assert ParseFrom(lines, k0) == Prepend(EntryOf(scanned.0).value, ParseFrom(lines, k0 + 1));
      } else {
        assert ParseFrom(lines, k0) == ParseFrom(lines, k0 + 1);
      }
    }
  }

  /**
   * A block line that is neither '}' nor one of the three keys aborts the
   * whole file with "no match", when the lines of its block before it read
   * well and every earlier block is accepted.
   */
  lemma UnknownKeyAborts(lines: seq<string>, i: nat, k: nat)
    requires i < k < |lines| && IsBlockStart(lines[i])
    requires forall m :: i < m < k ==> !IsClosing(lines[m]) && LineError(lines[m]).None?
    requires !IsClosing(lines[k]) && !StartsWith(Trim(lines[k]), IdentifierKey)
    requires !StartsWith(Trim(lines[k]), LocationKey) && !StartsWith(Trim(lines[k]), TypeKey)
    requires forall m :: 0 <= m < i && IsBlockStart(lines[m]) ==> Accepted(lines, m)
    ensures ParseMetaMapping(lines) == Failure(NoMatch)
  {
    assert LineError(lines[k]) == Some(NoMatch);
    BlockEndAfter(lines, i + 1, k);
    FirstFailure(lines, i + 1, k, NoFields);
    assert ParseFrom(lines, i) == Failure(NoMatch);
    EarlierAccepted(lines, 0, i);
  }

  /** A block body fails with the error of its first line that fails. */
  lemma FirstFailure(lines: seq<string>, j: nat, k: nat, f: Fields)
    requires j <= k < |lines| && k < BlockEnd(lines, j)
    requires forall m :: j <= m < k ==> LineError(lines[m]).None?
    requires LineError(lines[k]).Some?
    ensures ScanBlock(lines, j, f) == Failure(LineError(lines[k]).value)
  {
    FirstFailIs(lines, j, k);
    ScanBlockOutcome(lines, j, f);
  }

  /** With no '}' line from `j` through `k`, the block reaches past `k`. */
  lemma {:induction false} BlockEndAfter(lines: seq<string>, j: nat, k: nat)
    requires j <= k < |lines|
    requires forall m :: j <= m <= k ==> !IsClosing(lines[m])
    ensures k < BlockEnd(lines, j)
    decreases k - j
  {
    if j < k {
      BlockEndAfter(lines, j + 1, k);
    }
  }

  /**
   * A block that reads well but does not describe an entry aborts the whole
   * file, when every earlier block is accepted; the message quotes the block
   * from its first line up to where it ends.
   */
  lemma InvalidBlockRejected(lines: seq<string>, i: nat)
    requires i < |lines| && IsBlockStart(lines[i])
    requires ScanBlock(lines, i + 1, NoFields).Success?
    requires EntryOf(ScanBlock(lines, i + 1, NoFields).value.0).None?
    requires forall m :: 0 <= m < i && IsBlockStart(lines[m]) ==> Accepted(lines, m)
    ensures ParseMetaMapping(lines) == Failure(InvalidEntry(InvalidMessage(lines, i, BlockEnd(lines, i + 1))))
  {
    ScanBlockOutcome(lines, i + 1, NoFields);
    assert ParseFrom(lines, i) == Failure(InvalidEntry(InvalidMessage(lines, i, BlockEnd(lines, i + 1))));
    EarlierAccepted(lines, 0, i);
  }

  /**
   * A block whose lines read well but hold no type line is rejected, when every
   * earlier block is accepted.
   */
  lemma MissingTypeRejected(lines: seq<string>, i: nat)
    requires i < |lines| && IsBlockStart(lines[i])
    requires forall k :: i < k < BlockEnd(lines, i + 1) ==> LineError(lines[k]).None? && !StartsWith(Trim(lines[k]), TypeKey)
    requires forall m :: 0 <= m < i && IsBlockStart(lines[m]) ==> Accepted(lines, m)
    ensures ParseMetaMapping(lines) == Failure(InvalidEntry(InvalidMessage(lines, i, BlockEnd(lines, i + 1))))
  {
    ScanBlockOutcome(lines, i + 1, NoFields);
    ScanKeepsKind(lines, i + 1, NoFields);
    InvalidBlockRejected(lines, i);
  }

  /**
   * For example, a block closed before its type line is rejected, and the
   * message quotes the block from its first line through the '}'.
   */
  lemma MissingTypeExample(id: string, location: string)
    ensures ParseMetaMapping(["mappings: {", IdLine(id), LocationLine(location), "}"])
            == Failure(InvalidEntry(["Invalid mapping entry starting at line 0:",
                                     "mappings: {", IdLine(id), LocationLine(location), "}"]))
  {
    var lines := ["mappings: {", IdLine(id), LocationLine(location), "}"];
    OpeningLine(lines, 0);
    ScanIdLine(lines, 1, NoFields, id);
    ScanLocationLine(lines, 2, NoFields.(id := Some(id)), location);
    ScanClosingLine(lines, 3, Fields(Some(id), Some(location), None));
    var f := Fields(Some(id), Some(location), None);
    assert ParseFrom(lines, 0) == Failure(InvalidEntry(InvalidMessage(lines, 0, 4))) by {
      assert ScanBlock(lines, 1, NoFields) == Success((f, 4));
      assert EntryOf(f) == None;
    }
    var heading := "Invalid mapping entry starting at line 0:";
    assert InvalidMessage(lines, 0, 4) == [heading, lines[0], lines[1], lines[2], lines[3]] by {
      assert lines[0..4] == lines;
      assert NatToString(0) == "0";
      assert "Invalid mapping entry starting at line " + NatToString(0) + ":" == heading;
      assert [heading] + lines == [heading, lines[0], lines[1], lines[2], lines[3]];
    }
  }

  /**
   * A well-formed block is read back as the entry it describes:
   * `mappings: {`, `identifier: "<id>"`, `location: "<location>"`, `type: R8`, `}`.
   */
  lemma WellFormedBlock(id: string, location: string)
    requires |id| == IdLength
    ensures ParseMetaMapping(Block(id, location)) == Success([MappingEntry(id, location)])
  {
    var lines := Block(id, location);
    var f := Fields(Some(id), Some(location), Some(R8Type));
    OpeningLine(lines, 0);
    BlockScanned(id, location);
    assert EntryOf(f) == Some(MappingEntry(id, location));
    BlockBodyNotOpening(id, location);
    NoBlocksNoEntries(lines, 1);
    assert [MappingEntry(id, location)] + [] == [MappingEntry(id, location)];
  }

  /** The body of a well-formed block fills in all three fields and ends after its `}`. */
  lemma BlockScanned(id: string, location: string)
    ensures ScanBlock(Block(id, location), 1, NoFields) == Success((Fields(Some(id), Some(location), Some(R8Type)), 5))
  {
    var lines := Block(id, location);
    ScanIdLine(lines, 1, NoFields, id);
    ScanLocationLine(lines, 2, NoFields.(id := Some(id)), location);
    ScanTypeLine(lines, 3, Fields(Some(id), Some(location), None));
    ScanClosingLine(lines, 4, Fields(Some(id), Some(location), Some(R8Type)));
  }

  function IdLine(id: string): string
  {
    "identifier: \"" + id + "\""
  }

  function LocationLine(location: string): string
  {
    "location: \"" + location + "\""
  }

  /** The lines of a well-formed block. */
  function Block(id: string, location: string): seq<string>
  {
    ["mappings: {", IdLine(id), LocationLine(location), "type: R8", "}"]
  }

  lemma BlockBodyNotOpening(id: string, location: string)
    ensures forall k :: 1 <= k < |Block(id, location)| ==> !IsBlockStart(Block(id, location)[k])
  {
    var lines := Block(id, location);
    NotOpeningLine(lines[1]);
    NotOpeningLine(lines[2]);
    NotOpeningLine(lines[3]);
    NotOpeningLine(lines[4]);
  }

  lemma OpeningLine(lines: seq<string>, i: nat)
    requires i < |lines| && lines[i] == "mappings: {"
    ensures IsBlockStart(lines[i])
  {
    TrimOfClean(lines[i]);
    assert lines[i][..|MappingsKey|] == MappingsKey;
  }

  /** The other lines of a well-formed block do not open a block. */
  lemma NotOpeningLine(line: string)
    requires line != [] && line[0] != 'm' && !IsTrimmed(line[0]) && !IsTrimmed(line[|line| - 1])
    ensures !IsBlockStart(line)
  {
    TrimOfClean(line);
  }

  lemma ScanIdLine(lines: seq<string>, j: nat, f: Fields, id: string)
    requires j < |lines| && lines[j] == IdLine(id)
    ensures ScanBlock(lines, j, f) == ScanBlock(lines, j + 1, f.(id := Some(id)))
  {
    IdLineRead(id);
  }

  /** How the scan of a block body sees `identifier: "<id>"`. */
  lemma IdLineRead(id: string)
    ensures var line := IdLine(id);
      && Trim(line) == line && !StartsWith(line, "}") && StartsWith(line, IdentifierKey)
      && GetQuotedString(line) == Success(id)
  {
    var line := IdLine(id);
    TrimOfClean(line);
    assert line[..|IdentifierKey|] == IdentifierKey;
    assert line[0] == 'i';
    QuotedRoundTrip("identifier: ", id, "");
    assert line == "identifier: " + "\"" + id + "\"" + "";
  }

  lemma ScanLocationLine(lines: seq<string>, j: nat, f: Fields, location: string)
    requires j < |lines| && lines[j] == LocationLine(location)
    ensures ScanBlock(lines, j, f) == ScanBlock(lines, j + 1, f.(location := Some(location)))
  {
    LocationLineRead(location);
  }

  /** How the scan of a block body sees `location: "<location>"`. */
  lemma LocationLineRead(location: string)
    ensures var line := LocationLine(location);
      && Trim(line) == line && !StartsWith(line, "}") && !StartsWith(line, IdentifierKey)
      && StartsWith(line, LocationKey) && GetQuotedString(line) == Success(location)
  {
    var line := LocationLine(location);
    TrimOfClean(line);
    assert line[..|LocationKey|] == LocationKey;
    assert line[0] == 'l';
    QuotedRoundTrip("location: ", location, "");
    assert line == "location: " + "\"" + location + "\"" + "";
  }

  lemma ScanTypeLine(lines: seq<string>, j: nat, f: Fields)
    requires j < |lines| && lines[j] == "type: R8"
    ensures ScanBlock(lines, j, f) == ScanBlock(lines, j + 1, f.(kind := Some(R8Type)))
  {
    var line := lines[j];
    TrimOfClean(line);
    assert line[..|TypeKey|] == TypeKey;
    assert line[0] == 't';
    assert line[|TypeKey|..] == " R8";
    assert Trim(" R8") == R8Type by {
      assert TrimStart(" R8") == TrimStart("R8");
    }
  }

  lemma ScanClosingLine(lines: seq<string>, j: nat, f: Fields)
    requires j < |lines| && lines[j] == "}"
    ensures ScanBlock(lines, j, f) == Success((f, j + 1))
  {
    TrimOfClean(lines[j]);
    assert lines[j][..1] == "}";
  }

  /**
   * deriveMappingFileFromMetaMapping: the mapping archive's path, relative to
   * the build directory, is the meta-mapping file's with its suffix replaced
   * (every occurrence, as String.replace does).
   */
  function DeriveMappingFile(b: BuildInfo, relative: string): string
  {
    ReplaceAll(relative, b.MetaMappingFileSuffix(), b.MappingFileSuffix())
  }

  /** A meta-mapping path whose suffix occurs only at its end maps to the archive with the same stem. */
  lemma DeriveFromStem(b: BuildInfo, stem: string)
    requires forall k: nat :: k < |stem| ==> !OccursAt(stem + b.MetaMappingFileSuffix(), b.MetaMappingFileSuffix(), k)
    ensures DeriveMappingFile(b, stem + b.MetaMappingFileSuffix()) == stem + b.MappingFileSuffix()
    ensures EndsWith(DeriveMappingFile(b, stem + b.MetaMappingFileSuffix()), ".zip")
  {
    ReplaceTrailing(stem, b.MetaMappingFileSuffix(), b.MappingFileSuffix());
    SuffixesDiffer(b);
    var m := b.MappingFileSuffix();
    var d := stem + m;
    assert d[|d| - 4..] == m[|m| - 4..];
  }
}
