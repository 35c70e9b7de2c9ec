/**
 * How the retracer identifies mapping files: the map id and hash a mapping
 * file declares in its leading comment lines, the build a remote mapping comes
 * from, and the source-file markers that tie a stack line to a map
 * (RetraceWrapper.java:174-227, 308-327, 351-372, 414-422, 504-526).
 */
module MapIdentity {
  import opened Wrappers
  import opened JavaString

  /** Source-file marker of apps built with R8 inside AOSP: `go/retraceme <hash>`. */
  const AospSourceFileMarker: string := "go/retraceme "
  /** Source-file marker of R8 itself: `R8_<version>_<hash>`. */
  const R8SourceFileMarker: string := "R8_"
  const MapIdHeaderMarker: string := "# pg_map_id: "
  const MapHashHeaderMarker: string := "# pg_map_hash: SHA-256 "

  /** The identity a mapping file declares, or a stack line points at. */
  datatype MapInfo = MapInfo(id: string, hash: string)
  {
    function ToString(): string {
      "MapInfo{id='" + id + "', hash='" + hash + "'}"
    }
  }

  /** A build on the build server: its id, its target and optionally its branch. */
  datatype BuildInfo = BuildInfo(id: string, target: string, branch: Option<string>)
  {
    function MetaMappingFileSuffix(): string {
      "-proguard-dict-mapping-" + id + ".textproto"
    }

    function MappingFileSuffix(): string {
      "-proguard-dict-" + id + ".zip"
    }

    /** The name of the per-build directory below the temporary directory (getTempBuildDirPath). */
    function TempDirName(): string {
      id + "_" + target
    }
  }

  /** The meta-mapping suffix and the mapping suffix differ, so a derived name never keeps the former. */
  lemma SuffixesDiffer(b: BuildInfo)
    ensures b.MetaMappingFileSuffix() != b.MappingFileSuffix()
    ensures EndsWith(b.MetaMappingFileSuffix(), ".textproto") && EndsWith(b.MappingFileSuffix(), ".zip")
  {
    assert |b.MetaMappingFileSuffix()| == |b.MappingFileSuffix()| + 14;
  }

  /**
   * tryParseSourceFileMarkerForAosp: `go/retraceme <hash>` names the map whose
   * id and hash are both `<hash>`.
   */
  function TryParseSourceFileMarkerForAosp(sourceFile: string): Option<MapInfo>
  {
    if !StartsWith(sourceFile, AospSourceFileMarker) then None
    else
      var hash := sourceFile[|AospSourceFileMarker|..];
      Some(MapInfo(hash, hash))
  }

  /** An AOSP marker is read exactly from source files that start with it, and names id and hash alike. */
  lemma AospMarkerShape(sourceFile: string)
    ensures
      var r := TryParseSourceFileMarkerForAosp(sourceFile);
      && (r.Some? <==> StartsWith(sourceFile, AospSourceFileMarker))
      && (r.Some? ==> r.value.id == r.value.hash && sourceFile == AospSourceFileMarker + r.value.id)
  {
    if StartsWith(sourceFile, AospSourceFileMarker) {
      assert sourceFile == sourceFile[..|AospSourceFileMarker|] + sourceFile[|AospSourceFileMarker|..];
    }
  }

  /**
   * tryParseSourceFileMarkerForR8: `R8_<version>_<hash>` with the version
   * running up to the first '_' after the marker; without that '_' no map is named.
   */
  function TryParseSourceFileMarkerForR8(sourceFile: string): Option<MapInfo>
  {
    if !StartsWith(sourceFile, R8SourceFileMarker) then None
    else
      var hashStart := IndexOfChar(sourceFile, '_', |R8SourceFileMarker|) + 1;
      if hashStart <= 0 then None
      else
        var version := sourceFile[|R8SourceFileMarker|..hashStart - 1];
        var hash := sourceFile[hashStart..];
        Some(MapInfo(version, hash))
  }

  /**
   * An R8 marker is read exactly from source files that start with it and
   * hold a '_' after it; the source file is the marker, the version (free of
   * '_'), a '_' and the hash.
   */
  lemma R8MarkerShape(sourceFile: string)
    ensures
      var r := TryParseSourceFileMarkerForR8(sourceFile);
      && (r.Some? <==> StartsWith(sourceFile, R8SourceFileMarker)
                       && IndexOfChar(sourceFile, '_', |R8SourceFileMarker|) >= 0)
      && (r.Some? ==> sourceFile == R8SourceFileMarker + r.value.id + "_" + r.value.hash && '_' !in r.value.id)
  {
    if StartsWith(sourceFile, R8SourceFileMarker) {
      var hashStart := IndexOfChar(sourceFile, '_', |R8SourceFileMarker|) + 1;
      if hashStart > 0 {
        var version := sourceFile[|R8SourceFileMarker|..hashStart - 1];
        var hash := sourceFile[hashStart..];
        assert sourceFile == sourceFile[..3] + version + [sourceFile[hashStart - 1]] + hash;
        assert '_' !in version by {
          forall k | 0 <= k < |version| ensures version[k] != '_' {
            assert version[k] == sourceFile[3 + k];
          }
        }
      }
    }
  }

  /** An AOSP marker reads back the hash it was written with. */
  lemma AospMarkerRoundTrip(hash: string)
    ensures TryParseSourceFileMarkerForAosp(AospSourceFileMarker + hash) == Some(MapInfo(hash, hash))
  {
    var sf := AospSourceFileMarker + hash;
    assert sf[..|AospSourceFileMarker|] == AospSourceFileMarker;
    assert sf[|AospSourceFileMarker|..] == hash;
  }

  /** An R8 marker reads back its version and hash, provided the version holds no '_'. */
  lemma R8MarkerRoundTrip(version: string, hash: string)
    requires '_' !in version
    ensures TryParseSourceFileMarkerForR8(R8SourceFileMarker + version + "_" + hash)
            == Some(MapInfo(version, hash))
  {
    var sf := R8SourceFileMarker + version + "_" + hash;
    assert sf[..3] == R8SourceFileMarker;
    var u := 3 + |version|;
    assert sf[u] == '_';
    forall k | 3 <= k < u ensures sf[k] != '_' {
      assert sf[k] == version[k - 3];
    }
    IndexOfCharIs(sf, '_', 3, u);
    assert sf[3..u] == version;
    assert sf[u + 1..] == hash;
  }

  /** No source file carries both markers. */
  lemma MarkersExclusive(sourceFile: string)
    ensures !(TryParseSourceFileMarkerForAosp(sourceFile).Some?
              && TryParseSourceFileMarkerForR8(sourceFile).Some?)
  {
    if StartsWith(sourceFile, AospSourceFileMarker) {
      assert sourceFile[0] == AospSourceFileMarker[0] == 'g';
      assert !StartsWith(sourceFile, R8SourceFileMarker) by {
        if |R8SourceFileMarker| <= |sourceFile| {
          assert sourceFile[..3][0] == 'g';
        }
      }
    }
  }

  /** tryParseMapHeaderLine: the rest of the line after the header marker, if it starts with it. */
  function TryParseMapHeaderLine(line: string, marker: string): (r: Option<string>)
    ensures r.Some? <==> StartsWith(line, marker)
    ensures r.Some? ==> line == marker + r.value
  {
    if StartsWith(line, marker) then
      assert line == line[..|marker|] + line[|marker|..];
      Some(line[|marker|..])
    else None
  }

  /** The number of leading comment lines: the reader stops at the first line not starting with '#'. */
  function HeaderLength(lines: seq<string>): (n: nat)
    ensures n <= |lines|
  {
    if lines == [] || !StartsWith(lines[0], "#") then 0
    else 1 + HeaderLength(lines[1..])
  }

  /** Every line of the header is a comment, and so is no line just after it. */
  lemma {:induction false} HeaderLengthSpec(lines: seq<string>)
    ensures forall k :: 0 <= k < HeaderLength(lines) ==> StartsWith(lines[k], "#")
    ensures HeaderLength(lines) < |lines| ==> !StartsWith(lines[HeaderLength(lines)], "#")
  {
    if lines != [] && StartsWith(lines[0], "#") {
      HeaderLengthSpec(lines[1..]);
      forall k | 1 <= k < HeaderLength(lines) ensures StartsWith(lines[k], "#") {
        assert lines[k] == lines[1..][k - 1];
      }
    }
  }

  /** The value of the first line, in order, that carries `marker`. */
  function FirstHeaderValue(lines: seq<string>, marker: string): Option<string>
  {
    if lines == [] then None
    else
      match TryParseMapHeaderLine(lines[0], marker)
      case Some(v) => Some(v)
      case None => FirstHeaderValue(lines[1..], marker)
  }

  /**
   * A value is found exactly when some line carries the marker, and it is the
   * rest of the first such line.
   */
  lemma {:induction false} FirstHeaderValueSpec(lines: seq<string>, marker: string)
    ensures FirstHeaderValue(lines, marker).Some? <==> exists k :: 0 <= k < |lines| && StartsWith(lines[k], marker)
    ensures FirstHeaderValue(lines, marker).Some? ==>
              exists k :: 0 <= k < |lines| && lines[k] == marker + FirstHeaderValue(lines, marker).value
                          && forall j :: 0 <= j < k ==> !StartsWith(lines[j], marker)
  {
    if lines != [] && TryParseMapHeaderLine(lines[0], marker).None? {
      var r := FirstHeaderValue(lines[1..], marker);
      FirstHeaderValueSpec(lines[1..], marker);
      if r.Some? {
        var k :| 0 <= k < |lines[1..]| && lines[1..][k] == marker + r.value
                 && forall j :: 0 <= j < k ==> !StartsWith(lines[1..][j], marker);
        assert lines[k + 1] == marker + r.value;
        forall j | 0 <= j < k + 1 ensures !StartsWith(lines[j], marker) {
          if j > 0 {
            assert lines[j] == lines[1..][j - 1];
          }
        }
      } else {
        forall j | 0 <= j < |lines| ensures !StartsWith(lines[j], marker) {
          if j > 0 {
            assert lines[j] == lines[1..][j - 1];
          }
        }
      }
    }
  }

  /**
   * The map a mapping file declares: the first id header and the first hash
   * header among its leading comment lines, when it has both.
   */
  function MapHeaderInfo(lines: seq<string>): Option<MapInfo>
  {
    var header := lines[..HeaderLength(lines)];
    var id := FirstHeaderValue(header, MapIdHeaderMarker);
    var hash := FirstHeaderValue(header, MapHashHeaderMarker);
    if id.Some? && hash.Some? then Some(MapInfo(id.value, hash.value)) else None
  }

  /** readMapHeaderInfo (RetraceWrapper.java:351-372) over the lines of the file. */
  method ReadMapHeaderInfo(lines: seq<string>) returns (r: Option<MapInfo>)
    ensures r == MapHeaderInfo(lines)
  {
    var mapId: Option<string> := None;
    var mapHash: Option<string> := None;
    HeaderLengthSpec(lines);
    var i := 0;
    while i < |lines| && StartsWith(lines[i], "#")
      invariant i <= HeaderLength(lines)
      invariant mapId == FirstHeaderValue(lines[..i], MapIdHeaderMarker)
      invariant mapHash == FirstHeaderValue(lines[..i], MapHashHeaderMarker)
      decreases |lines| - i
    {
      FirstHeaderValueSnoc(lines[..i], lines[i], MapIdHeaderMarker);
      FirstHeaderValueSnoc(lines[..i], lines[i], MapHashHeaderMarker);
      assert lines[..i + 1] == lines[..i] + [lines[i]];
      if mapId.None? {
        mapId := TryParseMapHeaderLine(lines[i], MapIdHeaderMarker);
      }
      if mapHash.None? {
        mapHash := TryParseMapHeaderLine(lines[i], MapHashHeaderMarker);
      }
      i := i + 1;
    }
    assert i == HeaderLength(lines);
    if mapId.Some? && mapHash.Some? {
      r := Some(MapInfo(mapId.value, mapHash.value));
    } else {
      r := None;
    }
  }

  /** Extending the scanned lines by one keeps an earlier value and otherwise tries the new line. */
  lemma {:induction false} FirstHeaderValueSnoc(lines: seq<string>, line: string, marker: string)
    ensures FirstHeaderValue(lines + [line], marker)
            == if FirstHeaderValue(lines, marker).Some? then FirstHeaderValue(lines, marker)
               else TryParseMapHeaderLine(line, marker)
  {
    if lines == [] {
      assert [] + [line] == [line];
      assert [line][1..] == [];
    } else {
      assert (lines + [line])[1..] == lines[1..] + [line];
      assert (lines + [line])[0] == lines[0];
      FirstHeaderValueSnoc(lines[1..], line, marker);
    }
  }

  /** Lines after the first line that is not a comment are never read. */
  lemma HeaderIgnoresBody(header: seq<string>, body: string, rest: seq<string>)
    requires forall k :: 0 <= k < |header| ==> StartsWith(header[k], "#")
    requires !StartsWith(body, "#")
    ensures MapHeaderInfo(header + [body] + rest) == MapHeaderInfo(header + [body])
  {
    HeaderLengthOf(header, [body] + rest);
    HeaderLengthOf(header, [body]);
    assert header + [body] + rest == header + ([body] + rest);
    assert (header + ([body] + rest))[..|header|] == header;
    assert (header + [body])[..|header|] == header;
  }

  /** The header of `header + rest` is `header` when `rest` starts with a line that is not a comment. */
  lemma {:induction false} HeaderLengthOf(header: seq<string>, rest: seq<string>)
    requires forall k :: 0 <= k < |header| ==> StartsWith(header[k], "#")
    requires rest != [] && !StartsWith(rest[0], "#")
    ensures HeaderLength(header + rest) == |header|
  {
    if header == [] {
      assert header + rest == rest;
    } else {
      assert (header + rest)[0] == header[0];
      assert (header + rest)[1..] == header[1..] + rest;
      HeaderLengthOf(header[1..], rest);
    }
  }

  /**
   * A mapping file opening with its id and hash headers is identified by them,
   * whatever follows: later headers of either kind do not override the first.
   */
  lemma DeclaredMapInfo(id: string, hash: string, rest: seq<string>)
    ensures MapHeaderInfo([MapIdHeaderMarker + id, MapHashHeaderMarker + hash] + rest)
            == Some(MapInfo(id, hash))
  {
    var idLine := MapIdHeaderMarker + id;
    var hashLine := MapHashHeaderMarker + hash;
    var lines := [idLine, hashLine] + rest;
    assert idLine[..1] == "#" && hashLine[..1] == "#";
    assert idLine[..|MapIdHeaderMarker|] == MapIdHeaderMarker;
    assert hashLine[..|MapHashHeaderMarker|] == MapHashHeaderMarker;
    assert lines[1..][1..] == rest;
    assert lines[0] == idLine && lines[1..][0] == hashLine;
    assert StartsWith(idLine, "#") && StartsWith(hashLine, "#");
    assert HeaderLength(lines[1..]) >= 1;
    var n := HeaderLength(lines);
    assert n >= 2;
    var header := lines[..n];
    assert header[0] == idLine && header[1] == hashLine;
    assert !StartsWith(hashLine, MapIdHeaderMarker) by {
      assert hashLine[9] == 'h' && MapIdHeaderMarker[9] == 'i';
    }
    assert FirstHeaderValue(header, MapIdHeaderMarker) == Some(id) by {
      assert idLine[|MapIdHeaderMarker|..] == id;
    }
    assert !StartsWith(idLine, MapHashHeaderMarker) by {
      assert idLine[9] == 'i' && MapHashHeaderMarker[9] == 'h';
    }
    assert FirstHeaderValue(header[1..], MapHashHeaderMarker) == Some(hash) by {
      assert header[1..][0] == hashLine;
      assert hashLine[|MapHashHeaderMarker|..] == hash;
    }
  }

  /** The ways reading a meta-mapping file can fail. */
  datatype MetaError =
    /** A line inside a mappings block that is none of the known keys ("no match"). */
    | NoMatch
    /** A block missing a field, of another type than R8, or whose id is not 64 characters long. */
    | InvalidEntry(message: seq<string>)
    /** A quoted field with fewer than two '"': the substring call fails. */
    | Malformed

  /** getQuotedString: the text between the first and the last '"' of the line. */
  function GetQuotedString(line: string): Result<string, MetaError>
  {
    var open := IndexOfChar(line, '"', 0);
    var close := LastIndexOfBefore(line, '"', |line|);
    if 0 <= open < close then Success(line[open + 1..close]) else Failure(Malformed)
  }

  /**
   * A value written between quotes reads back whole, quotes inside it included,
   * when the text around the quotes holds none.
   */
  lemma QuotedRoundTrip(before: string, value: string, after: string)
    requires '"' !in before && '"' !in after
    ensures GetQuotedString(before + "\"" + value + "\"" + after) == Success(value)
  {
    var line := before + "\"" + value + "\"" + after;
    var open := |before|;
    var close := open + 1 + |value|;
    assert line[open] == '"' && line[close] == '"';
    forall k | 0 <= k < open ensures line[k] != '"' {
      assert line[k] == before[k];
    }
    IndexOfCharIs(line, '"', 0, open);
    forall k | close < k < |line| ensures line[k] != '"' {
      assert line[k] == after[k - close - 1];
    }
    LastIndexOfBeforeIs(line, '"', |line|, close);
    assert line[open + 1..close] == value;
  }

  /** With no quote, or a single one, the line is malformed. */
  lemma QuotedNeedsTwo(line: string)
    requires forall i, j :: 0 <= i < j < |line| ==> !(line[i] == '"' && line[j] == '"')
    ensures GetQuotedString(line) == Failure(Malformed)
  {
  }
}
