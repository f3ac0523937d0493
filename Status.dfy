/**
 * The status report of scripts/status.py: reading the verify log back into per-zone
 * entries, the best score per zone, the inspiration counts and the readiness issues.
 */
module Status {
  import opened Wrappers
  import opened Text
  import opened Zones
  import opened Verify

  /** One image's line in the log summary. */
  datatype Entry = Entry(filename: string, score: nat, verdict: Category)

  /** An entry and the zone it is filed under. */
  datatype Placed = Placed(zone: Zone, entry: Entry)

  // ---- the block header `(\S+)\s*-\s*(PASS|MARGINAL|REJECT|UNKNOWN)` ----

  /** The end of the run of non-white-space characters that starts at `i` (how far `\S+` can reach). */
  function SkipNonSpaces(s: string, i: nat): (j: nat)
    requires i <= |s|
    ensures i <= j <= |s|
    ensures forall k :: i <= k < j ==> !IsSpace(s[k])
    ensures j == |s| || IsSpace(s[j])
    decreases |s| - i
  {
    if i < |s| && !IsSpace(s[i]) then SkipNonSpaces(s, i + 1) else i
  }

  /** Which alternative of `(PASS|MARGINAL|REJECT|UNKNOWN)` matches at `i`, tried in that order. */
  function VerdictWordAt(h: string, i: nat): (r: Option<Category>)
    ensures r.Some? ==> OccursAt(h, CategoryName(r.value), i)
    ensures r.None? ==> forall c :: !OccursAt(h, CategoryName(c), i)
  {
    if OccursAt(h, "PASS", i) then Some(Pass)
    else if OccursAt(h, "MARGINAL", i) then Some(Marginal)
    else if OccursAt(h, "REJECT", i) then Some(Reject)
    else if OccursAt(h, "UNKNOWN", i) then Some(Unknown)
    else None
  }

  /**
   * The rest of the header pattern, `\s*-\s*(PASS|...)`, tried at index `k`. White space,
   * '-' and the verdict words start with different characters, so each `\s*` has one
   * way to go.
   */
  function HeaderRestAt(h: string, k: nat): Option<Category>
  {
    if k > |h| then None
    else
      var j := SkipSpaces(h, k);
      if j < |h| && h[j] == '-' then VerdictWordAt(h, SkipSpaces(h, j + 1)) else None
  }

  /**
   * Backtracking of a greedy group: the largest length in `1..k` after which the rest of
   * the pattern, `rest`, matches, with what `rest` captured.
   */
  function Longest(rest: nat -> Option<Category>, k: nat): (r: Option<(nat, Category)>)
    ensures r.Some? ==> 1 <= r.value.0 <= k && rest(r.value.0) == Some(r.value.1)
  {
    if k == 0 then None
    else if rest(k).Some? then Some((k, rest(k).value))
    else Longest(rest, k - 1)
  }

  /** The length found is the longest that works, and when none is found no length in `1..k` works. */
  lemma {:induction false} LongestIsLongest(rest: nat -> Option<Category>, k: nat)
    ensures var r := Longest(rest, k);
            && (r.Some? ==> forall j :: r.value.0 < j <= k ==> rest(j).None?)
            && (r.None? ==> forall j :: 1 <= j <= k ==> rest(j).None?)
  {
    if k > 0 && rest(k).None? {
      LongestIsLongest(rest, k - 1);
    }
  }

  /** What the header match captures: the file name and the verdict. */
  datatype HeaderMatch = HeaderMatch(filename: string, verdict: Category)

  /**
   * `re.match(r"(\S+)\s*-\s*(PASS|MARGINAL|REJECT|UNKNOWN)", header)`: greedy `\S+`
   * backs off one character at a time until the rest matches.
   */
  function MatchHeader(h: string): (r: Option<HeaderMatch>)
    ensures r.Some? ==> var n := |r.value.filename|;
              && 1 <= n <= SkipNonSpaces(h, 0) && h[..n] == r.value.filename
              && (forall k :: 0 <= k < n ==> !IsSpace(h[k]))
              && HeaderRestAt(h, n) == Some(r.value.verdict)
  {
    match Longest((j: nat) => HeaderRestAt(h, j), SkipNonSpaces(h, 0))
    case None => None
    case Some((k, c)) => Some(HeaderMatch(h[..k], c))
  }

  /**
   * The greedy `\S+` takes the longest run of non-white-space after which the rest of the
   * header matches; when there is none, no length of run works.
   */
  lemma MatchHeaderGreedy(h: string)
    ensures var r := MatchHeader(h);
            && (r.Some? ==> forall j :: |r.value.filename| < j <= SkipNonSpaces(h, 0) ==> HeaderRestAt(h, j).None?)
            && (r.None? ==> forall j :: 1 <= j <= SkipNonSpaces(h, 0) ==> HeaderRestAt(h, j).None?)
  {
    var rest := (j: nat) => HeaderRestAt(h, j);
    var top := SkipNonSpaces(h, 0);
    LongestIsLongest(rest, top);
    var lo := if MatchHeader(h).Some? then |MatchHeader(h).value.filename| else 0;
    forall j | lo < j <= top ensures HeaderRestAt(h, j).None? {
      assert rest(j).None?;
    }
  }

  // ---- score and zone ----

  const SCORE_TAG: string := "Score:"

  /** `re.search(r"Score:\s*(\d+)/50", line)`. */
  function LineScore(line: string): Option<nat>
  {
    SearchScoreMarker(line, SCORE_TAG)
  }

  /** The score of the first line that carries one, or 0. */
  function FirstScore(lines: seq<string>): nat
  {
    if lines == [] then 0
    else if LineScore(lines[0]).Some? then LineScore(lines[0]).value
    else FirstScore(lines[1..])
  }

  /** No line carries a score: the score is 0. */
  lemma {:induction false} FirstScoreNone(lines: seq<string>)
    requires forall i :: 0 <= i < |lines| ==> LineScore(lines[i]).None?
    ensures FirstScore(lines) == 0
  {
    if lines != [] {
      assert forall i :: 0 <= i < |lines| - 1 ==> lines[1..][i] == lines[i + 1];
      FirstScoreNone(lines[1..]);
    }
  }

  /** Line `i` is the first that carries a score: the score is that line's. */
  lemma {:induction false} FirstScoreAt(lines: seq<string>, i: nat)
    requires i < |lines| && LineScore(lines[i]).Some?
    requires forall j :: 0 <= j < i ==> LineScore(lines[j]).None?
    ensures FirstScore(lines) == LineScore(lines[i]).value
  {
    if i > 0 {
      assert forall j :: 0 <= j < i - 1 ==> lines[1..][j] == lines[j + 1];
      FirstScoreAt(lines[1..], i - 1);
    }
  }

  /** The prefix `zone + "_"` that files a name under a zone. */
  function ZonePrefix(z: Zone): string
  {
    ZoneName(z) + "_"
  }

  /** The first zone of `zs` whose prefix starts `name`. */
  function ZoneOfFrom(name: string, zs: seq<Zone>): (r: Option<Zone>)
    ensures r.Some? ==> r.value in zs && StartsWith(name, ZonePrefix(r.value))
    ensures r.None? ==> forall k :: 0 <= k < |zs| ==> !StartsWith(name, ZonePrefix(zs[k]))
  {
    if zs == [] then None
    else if StartsWith(name, ZonePrefix(zs[0])) then Some(zs[0])
    else
      var rest := ZoneOfFrom(name, zs[1..]);
      assert forall k :: 1 <= k < |zs| ==> zs[1..][k - 1] == zs[k];
      rest
  }

  /** No zone's prefix is a prefix of another's: a name is filed under at most one zone. */
  lemma ZonePrefixUnique(name: string, a: Zone, b: Zone)
    requires StartsWith(name, ZonePrefix(a)) && StartsWith(name, ZonePrefix(b))
    ensures a == b
  {
    var pa, pb := ZonePrefix(a), ZonePrefix(b);
    assert |pa| >= 5 && |pb| >= 5;
    assert forall i :: 0 <= i < 5 ==> pa[i] == name[i] == pb[i] by {
      assert name[..|pa|] == pa && name[..|pb|] == pb;
    }
    assert pa[0] == pb[0] && pa[1] == pb[1] && pa[3] == pb[3];
  }

  /** The zone loop of `parse_verify_log`: the zone whose prefix starts the file name, if any. */
  function ZoneOfName(name: string): (r: Option<Zone>)
    ensures r.Some? ==> StartsWith(name, ZonePrefix(r.value))
    ensures r.None? ==> forall z :: !StartsWith(name, ZonePrefix(z))
  {
    var r := ZoneOfFrom(name, ZONES);
    assert r.None? ==> forall z :: !StartsWith(name, ZonePrefix(z)) by {
      forall z ensures r.None? ==> !StartsWith(name, ZonePrefix(z)) {
        ZonesComplete(z);
        var k :| 0 <= k < |ZONES| && ZONES[k] == z;
      }
    }
    r
  }

  // ---- blocks ----

  /** `block.strip().split("\n")`. */
  function BlockLines(block: string): (lines: seq<string>)
    ensures |lines| >= 1
  {
    Split(Strip(block), "\n")
  }

  /** What one block of the log contributes: a zone and an entry, or nothing. */
  function BlockEntry(block: string): (r: Option<Placed>)
    ensures r.Some? ==> r.value.entry.filename != [] &&
                        StartsWith(r.value.entry.filename, ZonePrefix(r.value.zone)) &&
                        forall k :: 0 <= k < |r.value.entry.filename| ==> !IsSpace(r.value.entry.filename[k])
    ensures r.Some? ==> MatchHeader(BlockLines(block)[0]).Some? &&
                        r.value.entry.verdict == MatchHeader(BlockLines(block)[0]).value.verdict
    ensures r.Some? ==> r.value.entry.score == FirstScore(BlockLines(block)[1..])
    ensures r.Some? ==> r.value.entry.filename == MatchHeader(BlockLines(block)[0]).value.filename &&
                        Some(r.value.zone) == ZoneOfName(r.value.entry.filename)
    ensures r.None? <==> MatchHeader(BlockLines(block)[0]).None? ||
                         ZoneOfName(MatchHeader(BlockLines(block)[0]).value.filename).None?
  {
    var lines := BlockLines(block);
    match MatchHeader(lines[0])
    case None => None
    case Some(hm) =>
      match ZoneOfName(hm.filename)
      case None => None
      case Some(z) => Some(Placed(z, Entry(hm.filename, FirstScore(lines[1..]), hm.verdict)))
  }

  /** The score loop of `parse_verify_log`: the first `Score: n/50` among the lines after the header. */
  method ScanScore(lines: seq<string>) returns (score: nat)
    requires |lines| >= 1
    ensures score == FirstScore(lines[1..])
  {
    score := 0;
    var k := 1;
    while k < |lines|
      invariant 1 <= k <= |lines|
      invariant score == 0
      invariant FirstScore(lines[1..]) == FirstScore(lines[k..])
    {
      var m := LineScore(lines[k]);
      if m.Some? {
        score := m.value;
        return;
      }
      assert lines[k..][1..] == lines[k + 1..];
      k := k + 1;
    }
  }

  /** The zone loop of `parse_verify_log`: the first zone in `ZONES` order whose prefix starts the name. */
  method ScanZone(filename: string) returns (zone: Option<Zone>)
    ensures zone == ZoneOfName(filename)
  {
    var i := 0;
    while i < |ZONES|
      invariant 0 <= i <= |ZONES|
      invariant ZoneOfFrom(filename, ZONES) == ZoneOfFrom(filename, ZONES[i..])
    {
      if StartsWith(filename, ZonePrefix(ZONES[i])) {
        return Some(ZONES[i]);
      }
      assert ZONES[i..][1..] == ZONES[i + 1..];
      i := i + 1;
    }
    return None;
  }

  /** One iteration of the block loop of `parse_verify_log`. */
  method ParseBlock(block: string) returns (r: Option<Placed>)
    ensures r == BlockEntry(block)
  {
    var lines := Split(Strip(block), "\n");
    var header := MatchHeader(lines[0]);
    if header.None? {
      return None;
    }
    var score := ScanScore(lines);
    var zone := ScanZone(header.value.filename);
    if zone.None? {
      return None;
    }
    return Some(Placed(zone.value, Entry(header.value.filename, score, header.value.verdict)));
  }

  /** `text.split("\n## ")[1:]`: the chunks after each record marker. */
  function Blocks(text: string): seq<string>
  {
    Split(text, RECORD_MARKER)[1..]
  }

  /** What one block adds to zone `z`: its entry if it is filed there, else nothing. */
  function Contribution(block: string, z: Zone): seq<Entry>
  {
    match BlockEntry(block)
    case Some(p) => if p.zone == z then [p.entry] else []
    case None => []
  }

  /** The entries the blocks file under zone `z`, in log order. */
  function ZoneEntries(blocks: seq<string>, z: Zone): seq<Entry>
  {
    if blocks == [] then []
    else ZoneEntries(blocks[..|blocks| - 1], z) + Contribution(blocks[|blocks| - 1], z)
  }

  /** Every entry filed under a zone carries that zone's prefix, and there is at most one per block. */
  lemma {:induction false} ZoneEntriesFiled(blocks: seq<string>, z: Zone)
    ensures |ZoneEntries(blocks, z)| <= |blocks|
    ensures forall k :: 0 <= k < |ZoneEntries(blocks, z)| ==> StartsWith(ZoneEntries(blocks, z)[k].filename, ZonePrefix(z))
  {
    if blocks != [] {
      ZoneEntriesFiled(blocks[..|blocks| - 1], z);
    }
  }

  /** Appending one block to the log appends at most its own entry to its zone. */
  lemma ZoneEntriesSnoc(blocks: seq<string>, b: string, z: Zone)
    ensures ZoneEntries(blocks + [b], z) == ZoneEntries(blocks, z) + Contribution(b, z)
  {
    assert (blocks + [b])[..|blocks|] == blocks;
  }

  /** `results.setdefault(zone, []).append(entry)`. */
  function FileUnder(results: map<Zone, seq<Entry>>, p: Placed): map<Zone, seq<Entry>>
  {
    results[p.zone := (if p.zone in results then results[p.zone] else []) + [p.entry]]
  }

  /** One pass of the block loop: a kept block is filed, a dropped one leaves the dictionary. */
  function Filed(results: map<Zone, seq<Entry>>, placed: Option<Placed>): map<Zone, seq<Entry>>
  {
    if placed.Some? then FileUnder(results, placed.value) else results
  }

  /** The dictionary the block loop builds, block by block. */
  function Collected(blocks: seq<string>): map<Zone, seq<Entry>>
  {
    if blocks == [] then map[]
    else Filed(Collected(blocks[..|blocks| - 1]), BlockEntry(blocks[|blocks| - 1]))
  }

  /** The dictionary holds exactly the zones that have entries, each with its entries in log order. */
  lemma {:induction false} CollectedIsZoneEntries(blocks: seq<string>)
    ensures forall z :: z in Collected(blocks) <==> ZoneEntries(blocks, z) != []
    ensures forall z :: z in Collected(blocks) ==> Collected(blocks)[z] == ZoneEntries(blocks, z)
  {
    if blocks != [] {
      var prefix, last := blocks[..|blocks| - 1], blocks[|blocks| - 1];
      CollectedIsZoneEntries(prefix);
      var placed := BlockEntry(last);
      ContributionOf(last, placed);
      FileStep(Collected(prefix), z => ZoneEntries(prefix, z), z => ZoneEntries(blocks, z), placed);
    }
  }

  /** Filing one more entry keeps the dictionary in step with the per-zone lists. */
  lemma FileStep(m: map<Zone, seq<Entry>>, before: Zone -> seq<Entry>, after: Zone -> seq<Entry>, placed: Option<Placed>)
    requires forall z :: z in m <==> before(z) != []
    requires forall z :: z in m ==> m[z] == before(z)
    requires forall z :: after(z) == before(z) + (if placed.Some? && placed.value.zone == z then [placed.value.entry] else [])
    ensures var m' := Filed(m, placed);
            && (forall z :: z in m' <==> after(z) != [])
            && (forall z :: z in m' ==> m'[z] == after(z))
  {
  }

  lemma ContributionOf(block: string, placed: Option<Placed>)
    requires placed == BlockEntry(block)
    ensures forall z :: Contribution(block, z) == (if placed.Some? && placed.value.zone == z then [placed.value.entry] else [])
  {
  }

  lemma CollectedStep(blocks: seq<string>, k: nat, placed: Option<Placed>)
    requires k < |blocks| && placed == BlockEntry(blocks[k])
    ensures Collected(blocks[..k + 1]) == Filed(Collected(blocks[..k]), placed)
  {
    var front := blocks[..k + 1];
    assert front[..|front| - 1] == blocks[..k];
    assert front[|front| - 1] == blocks[k];
  }

  /** The blocks of the log file `raw` as `read_text` gives it: after newline translation. */
  function LogBlocks(raw: string): seq<string>
  {
    Blocks(UniversalNewlines(raw))
  }

  /**
   * `parse_verify_log`. `log` is the log file's content, or None when it does not exist;
   * the result files each zone's entries under the zone, in the order of the log.
   */
  method ParseVerifyLog(log: Option<string>) returns (results: map<Zone, seq<Entry>>)
    ensures log.None? ==> results == map[]
    ensures log.Some? ==> results == Collected(LogBlocks(log.value))
    ensures log.Some? ==> forall z :: z in results <==> ZoneEntries(LogBlocks(log.value), z) != []
    ensures log.Some? ==> forall z :: z in results ==> results[z] == ZoneEntries(LogBlocks(log.value), z)
  {
    results := map[];
    if log.None? {
      return;
    }
    var text := UniversalNewlines(log.value);
    var blocks := Blocks(text);
    for k := 0 to |blocks|
      invariant results == Collected(blocks[..k])
    {
      var placed := ParseBlock(blocks[k]);
      CollectedStep(blocks, k, placed);
      if placed.Some? {
        var z := placed.value.zone;
        var current := if z in results then results[z] else [];
        results := results[z := current + [placed.value.entry]];
      }
    }
    assert blocks[..|blocks|] == blocks;
    CollectedIsZoneEntries(blocks);
  }

  // ---- the report ----

  /** `max(zone_results, key=score)["score"]`, or None where the report prints "-". */
  function BestScore(entries: seq<Entry>): (r: Option<nat>)
    ensures r.None? <==> entries == []
    ensures r.Some? ==> exists k :: 0 <= k < |entries| && entries[k].score == r.value
    ensures r.Some? ==> forall k :: 0 <= k < |entries| ==> entries[k].score <= r.value
  {
    if entries == [] then None
    else
      var rest := BestScore(entries[1..]);
      assert forall k :: 1 <= k < |entries| ==> entries[1..][k - 1] == entries[k];
      if rest.None? || entries[0].score >= rest.value then Some(entries[0].score) else rest
  }

  /** The best-score cell of the zone table: "<best>/50", or "-" for a zone with no entries. */
  function BestScoreCell(entries: seq<Entry>): (cell: string)
    ensures entries == [] <==> cell == "-"
    ensures entries != [] ==> cell == NatToString(BestScore(entries).value) + "/50"
  {
    match BestScore(entries)
    case None => "-"
    case Some(b) => NatToString(b) + "/50"
  }

  /** The sum over `zs` of the counts of every zone but `full`. */
  function SumExceptFull(dirCount: Zone -> nat, zs: seq<Zone>): nat
  {
    if zs == [] then 0
    else SumExceptFull(dirCount, zs[..|zs| - 1]) + (if zs[|zs| - 1] == Full then 0 else dirCount(zs[|zs| - 1]))
  }

  /** The sum over `zs` of the values of a map that has every zone as a key. */
  function SumOver(counts: map<Zone, nat>, zs: seq<Zone>): nat
    requires forall z :: z in counts
  {
    if zs == [] then 0 else SumOver(counts, zs[..|zs| - 1]) + counts[zs[|zs| - 1]]
  }

  /**
   * The inspiration counts of `main`: each zone's own folder, and for `full` the sum of
   * the four other zones' folders. `dirCount(z)` is the image count of `ref/inspiration/<z>`.
   */
  method InspirationCounts(dirCount: Zone -> nat) returns (counts: map<Zone, nat>)
    ensures forall z :: z in counts
    ensures forall z :: z != Full ==> counts[z] == dirCount(z)
    ensures counts[Full] == dirCount(Shade) + dirCount(Seating) + dirCount(Plants) + dirCount(PlayArea)
  {
    counts := map[];
    for i := 0 to |ZONES|
      invariant forall z :: z in counts <==> z in ZONES[..i]
      invariant forall z :: z in counts && z != Full ==> counts[z] == dirCount(z)
      invariant Full in counts ==> counts[Full] == SumExceptFull(dirCount, ZONES)
    {
      var zone := ZONES[i];
      if zone == Full {
        var s := 0;
        for j := 0 to |ZONES|
          invariant s == SumExceptFull(dirCount, ZONES[..j])
        {
          assert ZONES[..j + 1][..j] == ZONES[..j];
          if ZONES[j] != Full {
            s := s + dirCount(ZONES[j]);
          }
        }
        assert ZONES[..|ZONES|] == ZONES;
        counts := counts[zone := s];
      } else {
        counts := counts[zone := dirCount(zone)];
      }
      assert ZONES[..i + 1] == ZONES[..i] + [ZONES[i]];
    }
    assert ZONES[..|ZONES|] == ZONES;
    forall z ensures z in counts {
      ZonesComplete(z);
    }
    SumExceptFullOfZones(dirCount);
  }

  lemma SumExceptFullOfZones(dirCount: Zone -> nat)
    ensures SumExceptFull(dirCount, ZONES) == dirCount(Shade) + dirCount(Seating) + dirCount(Plants) + dirCount(PlayArea)
  {
    assert ZONES[..4] == [Shade, Seating, Plants, PlayArea];
    assert [Shade, Seating, Plants, PlayArea][..3] == [Shade, Seating, Plants];
    assert [Shade, Seating, Plants][..2] == [Shade, Seating];
    assert [Shade, Seating][..1] == [Shade];
    assert [Shade][..0] == [];
  }

  /** `sum(inspiration_counts.values())`: every image is counted twice, once under `full`. */
  lemma TotalInspiration(dirCount: Zone -> nat, counts: map<Zone, nat>)
    requires forall z :: z in counts
    requires forall z :: z != Full ==> counts[z] == dirCount(z)
    requires counts[Full] == dirCount(Shade) + dirCount(Seating) + dirCount(Plants) + dirCount(PlayArea)
    ensures SumOver(counts, ZONES) == 2 * (dirCount(Shade) + dirCount(Seating) + dirCount(Plants) + dirCount(PlayArea))
    ensures SumOver(counts, ZONES) == 0 <==>
              dirCount(Shade) == 0 && dirCount(Seating) == 0 && dirCount(Plants) == 0 && dirCount(PlayArea) == 0
  {
    var a, b, c, d := dirCount(Shade), dirCount(Seating), dirCount(Plants), dirCount(PlayArea);
    assert ZONES[..4] == [Shade, Seating, Plants, PlayArea];
    assert [Shade, Seating, Plants, PlayArea][..3] == [Shade, Seating, Plants];
    assert [Shade, Seating, Plants][..2] == [Shade, Seating];
    assert [Shade, Seating][..1] == [Shade];
    assert [Shade][..0] == [];
    assert SumOver(counts, [Shade]) == a;
    assert SumOver(counts, [Shade, Seating]) == a + b;
    assert SumOver(counts, [Shade, Seating, Plants]) == a + b + c;
    assert SumOver(counts, [Shade, Seating, Plants, PlayArea]) == a + b + c + d;
    assert SumOver(counts, ZONES) == a + b + c + d + counts[Full];
  }

  const NO_SPACE_ISSUE: string := "No space photos in ref/space/"
  const NOT_ANNOTATED_ISSUE: string := "Space photos not annotated yet (run: python scripts/annotate.py)"
  const NO_INSPIRATION_ISSUE: string := "No inspiration images in ref/inspiration/"

  /** The readiness check at the end of `main`. */
  method ReadinessIssues(space: nat, annotated: nat, inspiration: map<Zone, nat>) returns (issues: seq<string>)
    requires forall z :: z in inspiration
    ensures NO_SPACE_ISSUE in issues <==> space == 0
    ensures NOT_ANNOTATED_ISSUE in issues <==> annotated == 0 && space > 0
    ensures NO_INSPIRATION_ISSUE in issues <==> SumOver(inspiration, ZONES) == 0
    ensures issues == [] <==> space > 0 && annotated > 0 && SumOver(inspiration, ZONES) > 0
    ensures |issues| <= 2
    ensures forall i, j :: 0 <= i < j < |issues| ==> issues[i] != issues[j]
    ensures space == 0 ==> issues[0] == NO_SPACE_ISSUE
    ensures SumOver(inspiration, ZONES) == 0 ==> issues[|issues| - 1] == NO_INSPIRATION_ISSUE
    ensures forall k :: 0 <= k < |issues| ==>
              issues[k] == NO_SPACE_ISSUE || issues[k] == NOT_ANNOTATED_ISSUE || issues[k] == NO_INSPIRATION_ISSUE
  {
    issues := [];
    if space == 0 {
      issues := issues + [NO_SPACE_ISSUE];
    }
    if annotated == 0 && space > 0 {
      issues := issues + [NOT_ANNOTATED_ISSUE];
    }
    var total := 0;
    for i := 0 to |ZONES|
      invariant total == SumOver(inspiration, ZONES[..i])
    {
      assert ZONES[..i + 1][..i] == ZONES[..i];
      total := total + inspiration[ZONES[i]];
    }
    assert ZONES[..|ZONES|] == ZONES;
    if total == 0 {
      issues := issues + [NO_INSPIRATION_ISSUE];
    }
  }
}
