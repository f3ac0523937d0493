/**
 * The verify log is written by `handle_verdict` (scripts/verify.py) and read back by
 * `parse_verify_log` (scripts/status.py). This module proves that the reader recovers
 * what the writer wrote: appending the record for one image to any log adds exactly
 * that image's entry, with its file name, score and verdict, to its zone.
 */
module RoundTrip {
  import opened Wrappers
  import opened Text
  import opened Zones
  import opened Verify
  import opened Status

  // ---- splitting ----

  /** Splitting at a one-character separator that the first piece does not contain. */
  lemma SplitAtFirstChar(a: string, sep: string, rest: string)
    requires |sep| == 1
    requires forall i :: 0 <= i < |a| ==> a[i] != sep[0]
    ensures Split(a + sep + rest, sep) == [a] + Split(rest, sep)
  {
    var t := a + sep + rest;
    assert OccursAt(t, sep, |a|) by {
      assert t[|a|..|a| + 1] == sep;
    }
    forall j | 0 <= j < |a| ensures !OccursAt(t, sep, j) {
      assert t[j] == a[j];
      assert j + 1 <= |t| ==> t[j..j + 1][0] == t[j];
    }
    assert IndexOf(t, sep) == Some(|a|);
    assert t[..|a|] == a;
    assert t[|a| + 1..] == rest;
  }

  /** The leftmost occurrence, from its defining property. */
  lemma IndexOfIs(t: string, p: string, i: nat)
    requires OccursAt(t, p, i)
    requires forall j :: 0 <= j < i ==> !OccursAt(t, p, j)
    ensures IndexOf(t, p) == Some(i)
  {
  }

  /** A marker inside `s` stays the first one when more text is appended. */
  lemma FirstMarkerKept(s: string, tail: string, i: nat)
    requires IndexOf(s, RECORD_MARKER) == Some(i)
    ensures IndexOf(s + tail, RECORD_MARKER) == Some(i)
  {
    var m, t := RECORD_MARKER, s + tail;
    assert t[i..i + 4] == s[i..i + 4];
    forall j | 0 <= j < i ensures !OccursAt(t, m, j) {
      assert !OccursAt(s, m, j);
      assert t[j..j + 4] == s[j..j + 4];
    }
    IndexOfIs(t, m, i);
  }

  /**
   * The record marker "\n## " has no proper prefix that is also a suffix: appended after a
   * text without a marker, it is the first marker of the whole.
   */
  lemma AppendedMarkerFirst(s: string, b: string)
    requires IndexOf(s, RECORD_MARKER).None?
    ensures IndexOf(s + RECORD_MARKER + b, RECORD_MARKER) == Some(|s|)
  {
    var m, t := RECORD_MARKER, s + RECORD_MARKER + b;
    forall j | 0 <= j < |s| ensures !OccursAt(t, m, j) {
      if j + 4 <= |s| {
        assert !OccursAt(s, m, j);
        assert t[j..j + 4] == s[j..j + 4];
      } else {
        assert t[|s|] == '\n';
        assert j + 4 <= |t| ==> t[j..j + 4][|s| - j] == t[|s|];
        assert m[|s| - j] != '\n';
      }
    }
    assert t[|s|..|s| + 4] == m;
    IndexOfIs(t, m, |s|);
  }

  /** Appending a marker and a marker-free chunk to any text adds exactly one piece to its split. */
  lemma {:induction false} SplitAppendChunk(s: string, b: string)
    requires IndexOf(b, RECORD_MARKER).None?
    ensures Split(s + RECORD_MARKER + b, RECORD_MARKER) == Split(s, RECORD_MARKER) + [b]
    decreases |s|
  {
    var m := RECORD_MARKER;
    var t := s + m + b;
    match IndexOf(s, m)
    case Some(i) =>
      FirstMarkerKept(s, m + b, i);
      assert t == s + (m + b);
      var rest := s[i + 4..];
      SplitAt(t, m, i);
      SplitAt(s, m, i);
      assert t[..i] == s[..i];
      assert t[i + 4..] == rest + m + b;
      SplitAppendChunk(rest, b);
    case None =>
      AppendedMarkerFirst(s, b);
      SplitAt(t, m, |s|);
      assert t[..|s|] == s;
      assert t[|s| + 4..] == b;
  }

  /** Appending a record to a log appends its chunk to the blocks the reader visits. */
  lemma BlocksAppend(log: string, b: string)
    requires IndexOf(b, RECORD_MARKER).None?
    ensures Blocks(log + RECORD_MARKER + b) == Blocks(log) + [b]
  {
    SplitAppendChunk(log, b);
    var pieces := Split(log, RECORD_MARKER);
    assert (pieces + [b])[1..] == pieces[1..] + [b];
  }

  // ---- the header line ----

  lemma SkipSpacesAt(s: string, i: nat, j: nat)
    requires i <= j <= |s|
    requires forall k :: i <= k < j ==> IsSpace(s[k])
    requires j == |s| || !IsSpace(s[j])
    ensures SkipSpaces(s, i) == j
  {
  }

  lemma SkipNonSpacesAt(s: string, i: nat, j: nat)
    requires i <= j <= |s|
    requires forall k :: i <= k < j ==> !IsSpace(s[k])
    requires j == |s| || IsSpace(s[j])
    ensures SkipNonSpaces(s, i) == j
  {
  }

  lemma SkipDigitsAt(s: string, i: nat, j: nat)
    requires i <= j <= |s|
    requires forall k :: i <= k < j ==> IsDigit(s[k])
    requires j == |s| || !IsDigit(s[j])
    ensures SkipDigits(s, i) == j
    decreases j - i
  {
    if i < j {
      SkipDigitsAt(s, i + 1, j);
    }
  }

  lemma VerdictWordOfName(h: string, i: nat, c: Category)
    requires OccursAt(h, CategoryName(c), i)
    ensures VerdictWordAt(h, i) == Some(c)
  {
    assert h[i] == CategoryName(c)[0] by {
      assert h[i..i + |CategoryName(c)|][0] == h[i];
    }
  }

  /** The header `handle_verdict` writes reads back as the image name and the verdict. */
  lemma HeaderOfRecord(name: string, c: Category)
    requires name != [] && forall i :: 0 <= i < |name| ==> !IsSpace(name[i])
    ensures MatchHeader(name + " - " + CategoryName(c)) == Some(HeaderMatch(name, c))
  {
    var h := name + " - " + CategoryName(c);
    NameRunOfHeader(name, c);
    RestOfHeader(name, c);
    MatchHeaderAt(h, |name|, c);
    assert h[..|name|] == name;
  }

  /** The `\S+` run of a written header is the image name. */
  lemma NameRunOfHeader(name: string, c: Category)
    requires forall i :: 0 <= i < |name| ==> !IsSpace(name[i])
    ensures SkipNonSpaces(name + " - " + CategoryName(c), 0) == |name|
  {
    NameRun(name, CategoryName(c));
  }

  lemma NameRun(name: string, word: string)
    requires forall i :: 0 <= i < |name| ==> !IsSpace(name[i])
    ensures SkipNonSpaces(name + " - " + word, 0) == |name|
  {
    var b := " - " + word;
    assert name + " - " + word == name + b;
    assert b[0] == ' ';
    NonSpaceRun(name, b);
  }

  /** A run of non-spaces followed by a space ends where the run ends. */
  lemma NonSpaceRun(a: string, b: string)
    requires forall i :: 0 <= i < |a| ==> !IsSpace(a[i])
    requires b != [] && IsSpace(b[0])
    ensures SkipNonSpaces(a + b, 0) == |a|
  {
    assert forall i :: 0 <= i < |a| ==> (a + b)[i] == a[i];
    assert (a + b)[|a|] == b[0];
    SkipNonSpacesAt(a + b, 0, |a|);
  }

  /** After the image name, ` - ` and the verdict word match the rest of the header pattern. */
  lemma RestOfHeader(name: string, c: Category)
    ensures HeaderRestAt(name + " - " + CategoryName(c), |name|) == Some(c)
  {
    var cn := CategoryName(c);
    var h := name + " - " + cn;
    var n := |name|;
    assert h[n] == ' ' && h[n + 1] == '-' && h[n + 2] == ' ';
    assert h[n + 3..] == cn;
    assert h[n + 3] == cn[0];
    SkipSpacesAt(h, n, n + 1);
    SkipSpacesAt(h, n + 2, n + 3);
    assert OccursAt(h, cn, n + 3) by {
      assert h[n + 3..n + 3 + |cn|] == cn;
    }
    VerdictWordOfName(h, n + 3, c);
  }

  /** When the rest of the pattern matches right after the whole `\S+` run, the match takes all of it. */
  lemma MatchHeaderAt(h: string, n: nat, c: Category)
    requires 1 <= n <= |h| && SkipNonSpaces(h, 0) == n && HeaderRestAt(h, n) == Some(c)
    ensures MatchHeader(h) == Some(HeaderMatch(h[..n], c))
  {
  }

  // ---- the score line ----

  /** The score line `handle_verdict` writes reads back as the score. */
  lemma ScoreOfRecordLine(total: nat)
    ensures LineScore(ScoreLine(total)) == Some(total)
  {
    var d := NatToString(total);
    var line := ScoreLine(total);
    var e := 9 + |d|;
    assert line[2..8] == SCORE_TAG;
    assert forall k :: 9 <= k < e ==> line[k] == d[k - 9];
    assert line[e..e + 3] == "/50";
    SkipSpacesAt(line, 8, 9);
    assert !IsDigit(line[e]);
    SkipDigitsAt(line, 9, e);
    assert line[9..e] == d;
    NatToStringRoundTrip(total);
    assert ScoreMarkerAt(line, SCORE_TAG, 2) == Some(total);
    assert ScoreMarkerAt(line, SCORE_TAG, 0).None? by {
      assert line[0..6][0] == '-';
    }
    assert ScoreMarkerAt(line, SCORE_TAG, 1).None? by {
      assert line[1..7][0] == ' ';
    }
    assert ScoreMarkerIndexFrom(line, SCORE_TAG, 0) == Some(2);
  }

  // ---- a whole record ----

  /** A log record without its leading marker: the chunk the reader sees for it. */
  function RecordBody(name: string, r: VerdictRecord): string
  {
    HeaderLine(name, r) + "\n" + ScoreWrite(r) + DetailWrites(r) + RawWrite(r)
  }

  lemma RecordIsMarkerAndBody(name: string, r: VerdictRecord)
    ensures LogRecord(name, r) == RECORD_MARKER + RecordBody(name, r)
  {
  }

  /** The entry an image's record should read back as. */
  function ExpectedEntry(name: string, r: VerdictRecord): Entry
    requires r.total >= 0
  {
    Entry(name, r.total, r.verdict)
  }

  /** The text of the score line, without its newline. */
  function ScoreLine(total: nat): string
  {
    "- Score: " + NatToString(total) + "/50"
  }

  lemma ScoreLineHasNoNewline(total: nat)
    ensures forall i :: 0 <= i < |ScoreLine(total)| ==> ScoreLine(total)[i] != '\n'
  {
    var d, line := NatToString(total), ScoreLine(total);
    assert forall i :: 9 <= i < 9 + |d| ==> line[i] == d[i - 9];
  }

  lemma HeaderHasNoNewline(name: string, r: VerdictRecord)
    requires forall i :: 0 <= i < |name| ==> !IsSpace(name[i])
    ensures forall i :: 0 <= i < |HeaderLine(name, r)| ==> HeaderLine(name, r)[i] != '\n'
  {
    var h, cn := HeaderLine(name, r), CategoryName(r.verdict);
    assert forall i :: 0 <= i < |name| ==> h[i] == name[i];
    assert forall i :: |name| <= i < |h| ==> h[i] == (" - " + cn)[i - |name|];
  }

  /** A string that starts with a non-space loses nothing at its front. */
  lemma StripStartKeeps(s: string)
    requires s != [] && !IsSpace(s[0])
    ensures StripStart(s) == s
  {
  }

  /** The closing fence of a raw block, stripped. */
  lemma StripEndFence(front: string)
    ensures StripEnd(front + "```\n") == front + "```"
  {
    StripEndAppend(front, "```\n", 0);
    assert StripEnd("```\n") == "```";
  }

  /** The chunk regrouped so that the closing fence comes last. */
  lemma ChunkShape(h: string, s: string, d: string, t: string)
    ensures h + "\n" + (s + "\n") + d + ("- Raw:\n```\n" + t + "\n```\n")
            == (h + "\n" + (s + "\n" + (d + "- Raw:\n```\n" + t + "\n"))) + "```\n"
  {
  }

  /** `strip()` of a chunk that ends in "```\n" and starts with a non-space. */
  lemma StripChunk(h: string, s: string, d: string, t: string)
    requires h != [] && !IsSpace(h[0])
    ensures Strip(h + "\n" + (s + "\n") + d + ("- Raw:\n```\n" + t + "\n```\n"))
            == h + "\n" + (s + "\n" + (d + "- Raw:\n```\n" + t + "\n```"))
  {
    var front := h + "\n" + (s + "\n" + (d + "- Raw:\n```\n" + t + "\n"));
    ChunkShape(h, s, d, t);
    StripStartKeeps(front + "```\n");
    StripEndFence(front);
    assert front + "```" == h + "\n" + (s + "\n" + (d + "- Raw:\n```\n" + t + "\n```"));
  }

  /** `block.strip()` of a record's chunk drops the final newline and nothing else. */
  lemma StripRecordBody(name: string, r: VerdictRecord)
    requires name != [] && !IsSpace(name[0])
    requires r.total >= 0
    ensures var rest := DetailWrites(r) + "- Raw:\n```\n" + Take(r.raw, 500) + "\n```";
            Strip(RecordBody(name, r)) == HeaderLine(name, r) + "\n" + (ScoreLine(r.total) + "\n" + rest)
  {
    var h := HeaderLine(name, r);
    assert h[0] == name[0];
    assert ScoreWrite(r) == ScoreLine(r.total) + "\n";
    assert RawWrite(r) == "- Raw:\n```\n" + Take(r.raw, 500) + "\n```\n";
    StripChunk(h, ScoreLine(r.total), DetailWrites(r), Take(r.raw, 500));
  }

  /**
   * The chunk of one record reads back as the image's entry, filed under the image's zone,
   * when the name is a zone-prefixed file name without white space and the score is not
   * negative.
   */
  lemma BlockOfRecord(name: string, r: VerdictRecord, z: Zone)
    requires name != [] && forall i :: 0 <= i < |name| ==> !IsSpace(name[i])
    requires ZoneOfName(name) == Some(z)
    requires r.total >= 0
    ensures BlockEntry(RecordBody(name, r)) == Some(Placed(z, ExpectedEntry(name, r)))
  {
    var head, score := HeaderLine(name, r), ScoreLine(r.total);
    var rest := DetailWrites(r) + "- Raw:\n```\n" + Take(r.raw, 500) + "\n```";
    StripRecordBody(name, r);
    HeaderHasNoNewline(name, r);
    ScoreLineHasNoNewline(r.total);
    SplitAtFirstChar(head, "\n", score + "\n" + rest);
    SplitAtFirstChar(score, "\n", rest);
    var lines := BlockLines(RecordBody(name, r));
    assert lines == [head] + ([score] + Split(rest, "\n"));
    assert lines[0] == head && lines[1..][0] == score;
    HeaderOfRecord(name, r.verdict);
    ScoreOfRecordLine(r.total);
    assert FirstScore(lines[1..]) == r.total;
  }

  /** Appending a block that reads back as an entry of zone `z` extends that zone's entries by it. */
  lemma AppendBlockEntries(blocks: seq<string>, b: string, z: Zone, e: Entry)
    requires BlockEntry(b) == Some(Placed(z, e))
    ensures forall y :: ZoneEntries(blocks + [b], y) == ZoneEntries(blocks, y) + (if y == z then [e] else [])
  {
    forall y ensures ZoneEntries(blocks + [b], y) == ZoneEntries(blocks, y) + (if y == z then [e] else []) {
      ZoneEntriesSnoc(blocks, b, y);
      ContributionOf(b, Some(Placed(z, e)));
    }
  }

  /** Appending a record to a log appends its chunk to the blocks. */
  lemma LogAppend(log: string, name: string, r: VerdictRecord)
    requires IndexOf(RecordBody(name, r), RECORD_MARKER).None?
    ensures Blocks(log + LogRecord(name, r)) == Blocks(log) + [RecordBody(name, r)]
  {
    var body := RecordBody(name, r);
    RecordIsMarkerAndBody(name, r);
    assert log + LogRecord(name, r) == log + RECORD_MARKER + body;
    BlocksAppend(log, body);
  }

  /** A record without carriage returns is read back as written, after any log that does not end in one. */
  lemma RecordReadsBack(log: string, name: string, r: VerdictRecord)
    requires log == [] || log[|log| - 1] != '\r'
    requires '\r' !in RecordBody(name, r)
    ensures UniversalNewlines(log + LogRecord(name, r)) == UniversalNewlines(log) + LogRecord(name, r)
  {
    RecordIsMarkerAndBody(name, r);
    MarkerHasNoReturn();
    NoReturnInConcat(RECORD_MARKER, RecordBody(name, r));
    PlainTextAppended(log, LogRecord(name, r));
  }

  lemma MarkerHasNoReturn()
    ensures '\r' !in RECORD_MARKER
  {
    var m := RECORD_MARKER;
    assert |m| == 4 && m[0] == '\n' && m[1] == '#' && m[2] == '#' && m[3] == ' ';
    assert forall i :: 0 <= i < |m| ==> m[i] != '\r';
  }

  lemma NoReturnInConcat(a: string, b: string)
    requires '\r' !in a && '\r' !in b
    ensures '\r' !in a + b
  {
  }

  lemma PlainTextAppended(log: string, t: string)
    requires log == [] || log[|log| - 1] != '\r'
    requires '\r' !in t
    ensures UniversalNewlines(log + t) == UniversalNewlines(log) + t
  {
    NewlinesKeepPlainText(t);
    NewlinesAppend(log, t);
  }

  /**
   * The round trip: when an image's record holds no record marker after its first and no
   * carriage return, then for every zone, the entries read from the log with the record
   * appended are the entries read before, followed by the image's entry if the image is
   * in that zone.
   */
  lemma AppendRecordAddsEntry(log: string, name: string, r: VerdictRecord, z: Zone)
    requires name != [] && forall i :: 0 <= i < |name| ==> !IsSpace(name[i])
    requires ZoneOfName(name) == Some(z)
    requires r.total >= 0
    requires IndexOf(RecordBody(name, r), RECORD_MARKER).None?
    requires '\r' !in RecordBody(name, r) && (log == [] || log[|log| - 1] != '\r')
    ensures forall y :: ZoneEntries(LogBlocks(log + LogRecord(name, r)), y)
                        == ZoneEntries(LogBlocks(log), y) + (if y == z then [ExpectedEntry(name, r)] else [])
  {
    RecordReadsBack(log, name, r);
    LogAppend(UniversalNewlines(log), name, r);
    BlockOfRecord(name, r, z);
    AppendBlockEntries(LogBlocks(log), RecordBody(name, r), z, ExpectedEntry(name, r));
  }

  /** A log that holds one record reads back as that one entry under its zone. */
  lemma SingleRecord(name: string, r: VerdictRecord, z: Zone)
    requires name != [] && forall i :: 0 <= i < |name| ==> !IsSpace(name[i])
    requires ZoneOfName(name) == Some(z)
    requires r.total >= 0
    requires IndexOf(RecordBody(name, r), RECORD_MARKER).None?
    requires '\r' !in RecordBody(name, r)
    ensures Collected(LogBlocks(LogRecord(name, r))) == map[z := [ExpectedEntry(name, r)]]
  {
    var body := RecordBody(name, r);
    RecordReadsBack("", name, r);
    assert "" + LogRecord(name, r) == LogRecord(name, r);
    LogAppend("", name, r);
    assert Blocks("") == [] by {
      assert Split("", RECORD_MARKER) == [""];
    }
    assert LogBlocks(LogRecord(name, r)) == [body];
    BlockOfRecord(name, r, z);
    CollectedOne(body, Placed(z, ExpectedEntry(name, r)));
  }

  lemma CollectedOne(b: string, p: Placed)
    requires BlockEntry(b) == Some(p)
    ensures Collected([b]) == map[p.zone := [p.entry]]
  {
    var bs := [b];
    assert bs[..|bs| - 1] == [];
    assert Collected(bs) == FileUnder(map[], p);
    FileUnderEmpty(p);
  }

  lemma FileUnderEmpty(p: Placed)
    ensures FileUnder(map[], p) == map[p.zone := [p.entry]]
  {
    var e: map<Zone, seq<Entry>> := map[];
    assert p.zone !in e;
    var none: seq<Entry> := [];
    assert none + [p.entry] == [p.entry];
  }
}
