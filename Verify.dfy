/**
 * Verification of a generated design (scripts/verify.py): turning the model's reply
 * into a verdict record, the two fixed results of `verify_image` that bypass the
 * parser, and what `handle_verdict` does with a record (the REJECT move and the
 * verify-log entry it appends).
 */
module Verify {
  import opened Wrappers
  import opened Text

  const PASS_THRESHOLD: int := 40
  const MARGINAL_THRESHOLD: int := 30

  datatype Category = Pass | Marginal | Reject | Unknown

  /** The verdict as it is written in a record and in the log. */
  function CategoryName(c: Category): string
  {
    match c
    case Pass => "PASS"
    case Marginal => "MARGINAL"
    case Reject => "REJECT"
    case Unknown => "UNKNOWN"
  }

  /** How good a category is: UNKNOWN < REJECT < MARGINAL < PASS. */
  function Rank(c: Category): nat
  {
    match c
    case Unknown => 0
    case Reject => 1
    case Marginal => 2
    case Pass => 3
  }

  /**
   * The category a score earns when no verdict is stated: the reference rule both
   * branches of `parse_verdict` implement.
   */
  function Classify(total: int): (c: Category)
    ensures c == Pass <==> total >= 40
    ensures c == Marginal <==> 30 <= total < 40
    ensures c == Reject <==> 0 < total < 30
    ensures c == Unknown <==> total <= 0
  {
    if total >= PASS_THRESHOLD then Pass
    else if total >= MARGINAL_THRESHOLD then Marginal
    else if total > 0 then Reject
    else Unknown
  }

  /** A higher score never earns a worse category. */
  lemma ClassifyMonotone(s: int, t: int)
    requires s <= t
    ensures Rank(Classify(s)) <= Rank(Classify(t))
  {
  }

  /** The `verdict` field of the JSON object, accepted only when its upper-cased form is one of the three words. */
  function StatedCategory(word: string): (r: Option<Category>)
    ensures r.Some? <==> Upper(word) in {"PASS", "MARGINAL", "REJECT"}
    ensures r.Some? ==> r.value != Unknown && CategoryName(r.value) == Upper(word)
  {
    var u := Upper(word);
    if u == "PASS" then Some(Pass)
    else if u == "MARGINAL" then Some(Marginal)
    else if u == "REJECT" then Some(Reject)
    else None
  }

  /** The dictionary `parse_verdict` returns. */
  datatype VerdictRecord = VerdictRecord(
    verdict: Category,
    total: int,
    feedback: string,
    issues: seq<string>,
    adjustments: seq<string>,
    raw: string)

  /** The starting record: nothing extracted yet. */
  function UnknownRecord(text: string): VerdictRecord
  {
    VerdictRecord(Unknown, 0, "", [], [], text)
  }

  /**
   * The parts of the object that `json.loads` returns which `parse_verdict` reads.
   * `total` is None when `int(data.get("total", 0))` raises ValueError; an absent
   * key reaches this model as `Some(0)`.
   */
  datatype JsonObject = JsonObject(
    total: Option<int>,
    verdict: string,
    issues: seq<string>,
    adjustments: seq<string>)

  /**
   * What `json.loads` and the reads of the decoded object give for one candidate text:
   * - `DecodeError`: `json.loads` raised JSONDecodeError, which `parse_verdict` catches;
   * - `Decoded(o)`: every read succeeded, or `int` raised the ValueError that is caught
   *   (then `o.total` is None);
   * - `ReadError(message)`: a read raised an exception the `except` clause does not list
   *   (a TypeError from `int(None)`, an AttributeError from `.upper()` on a non-string or
   *   from `.get` on a non-object, a TypeError from joining non-strings); `message` is `str(e)`.
   */
  datatype Decoded = DecodeError | Decoded(obj: JsonObject) | ReadError(message: string)

  /** `json.loads` and the reads after it, as an oracle. */
  type Loads = string -> Decoded

  /** What a call of `parse_verdict` does: return a record, or let an exception escape. */
  datatype ParseOutcome = Returns(record: VerdictRecord) | Throws(message: string)

  const TOTAL_KEY: string := "\"total\""

  /**
   * The text `re.search(r'\{[\s\S]*"total"[\s\S]*\}', text)` matches: from the first
   * '{' to the last '}', provided a `"total"` lies between them. The regex fails
   * exactly when no '{', `"total"`, '}' occur in that order.
   */
  function JsonCandidate(text: string): (r: Option<string>)
    ensures r.Some? ==> IndexOfChar(text, '{').Some? && LastIndexOf(text, '}').Some? &&
                        var i, q := IndexOfChar(text, '{').value, LastIndexOf(text, '}').value;
                        i < q && r.value == text[i..q + 1]
    ensures r.Some? ==> |r.value| >= 9 && r.value[0] == '{' && r.value[|r.value| - 1] == '}'
    ensures r.Some? ==> IndexOf(r.value, TOTAL_KEY).Some?
  {
    match IndexOfChar(text, '{')
    case None => None
    case Some(i) =>
      match LastIndexOf(text, '}')
      case None => None
      case Some(q) =>
        match IndexOfFrom(text, TOTAL_KEY, i + 1)
        case None => None
        case Some(p) =>
          if p + 7 <= q then
            CandidateShape(text, i, p, q);
            Some(text[i..q + 1])
          else None
  }

  /** The text from a '{' to a '}' with `"total"` between them. */
  lemma CandidateShape(text: string, i: nat, p: nat, q: nat)
    requires i < p && p + 7 <= q < |text| && text[i] == '{' && text[q] == '}'
    requires OccursAt(text, TOTAL_KEY, p)
    ensures var c := text[i..q + 1];
            |c| >= 9 && c[0] == '{' && c[|c| - 1] == '}' && IndexOf(c, TOTAL_KEY).Some?
  {
    var c := text[i..q + 1];
    SliceOfSlice(text, i, q + 1, p - i, p - i + 7);
    assert OccursAt(c, TOTAL_KEY, p - i);
  }

  /** A '{', then `"total"`, then '}' at indices i < p, p + 7 <= q: what the JSON regex looks for. */
  predicate JsonShapeAt(text: string, i: int, p: int, q: int)
  {
    0 <= i < p && p + 7 <= q < |text| && text[i] == '{' && OccursAt(text, TOTAL_KEY, p) && text[q] == '}'
  }

  /** The JSON regex fails exactly when the text has no '{' ... `"total"` ... '}' in that order. */
  lemma JsonCandidateNone(text: string)
    ensures JsonCandidate(text).None? <==> forall i, p, q :: !JsonShapeAt(text, i, p, q)
  {
    var first, last := IndexOfChar(text, '{'), LastIndexOf(text, '}');
    if JsonCandidate(text).Some? {
      var i, q := first.value, last.value;
      var p := IndexOfFrom(text, TOTAL_KEY, i + 1).value;
      assert JsonShapeAt(text, i, p, q);
    } else {
      forall i, p, q | JsonShapeAt(text, i, p, q) ensures false {
      }
    }
  }

  /** The object the JSON branch works with: a candidate that decodes and whose total converts. */
  function JsonObjectOf(text: string, loads: Loads): (r: Option<JsonObject>)
    ensures r.Some? <==> JsonCandidate(text).Some? && loads(JsonCandidate(text).value).Decoded? &&
                         loads(JsonCandidate(text).value).obj.total.Some?
    ensures r.Some? ==> r.value == loads(JsonCandidate(text).value).obj && r.value.total.Some?
  {
    match JsonCandidate(text)
    case None => None
    case Some(c) =>
      match loads(c)
      case Decoded(o) => if o.total.Some? then Some(o) else None
      case _ => None
  }

  /** The message of an exception that escapes the JSON branch, if one does. */
  function JsonReadError(text: string, loads: Loads): (r: Option<string>)
    ensures r.Some? <==> JsonCandidate(text).Some? && loads(JsonCandidate(text).value).ReadError?
    ensures r.Some? ==> r.value == loads(JsonCandidate(text).value).message && JsonObjectOf(text, loads).None?
  {
    match JsonCandidate(text)
    case None => None
    case Some(c) =>
      match loads(c)
      case ReadError(m) => Some(m)
      case _ => None
  }

  /** The `parts` list of the JSON branch: the issues first, then the prompt adjustments. */
  function FeedbackParts(issues: seq<string>, adjustments: seq<string>): seq<string>
  {
    (if issues != [] then ["Issues: " + Join("; ", issues)] else [])
    + (if adjustments != [] then ["Adjustments: " + Join("; ", adjustments)] else [])
  }

  /** `" | ".join(parts) if parts else ""`. */
  function FeedbackText(issues: seq<string>, adjustments: seq<string>): (f: string)
    ensures f == "" <==> issues == [] && adjustments == []
    ensures issues != [] && adjustments == [] ==> f == "Issues: " + Join("; ", issues)
    ensures issues == [] && adjustments != [] ==> f == "Adjustments: " + Join("; ", adjustments)
    ensures issues != [] && adjustments != [] ==>
              f == "Issues: " + Join("; ", issues) + " | " + "Adjustments: " + Join("; ", adjustments)
  {
    var parts := FeedbackParts(issues, adjustments);
    if parts == [] then ""
    else if |parts| == 1 then Join(" | ", parts)
    else JoinTwo(" | ", parts[0], parts[1]); assert parts == [parts[0], parts[1]]; Join(" | ", parts)
  }

  lemma JoinTwo(sep: string, a: string, b: string)
    ensures Join(sep, [a, b]) == a + sep + b
  {
    assert [a, b][1..] == [b];
  }

  /** The JSON branch's derivation, as written: keep a stated verdict, else derive from a positive total. */
  function JsonCategory(total: int, stated: Option<Category>): Category
  {
    var v := stated.GetOr(Unknown);
    if v == Unknown && total > 0 then
      if total >= PASS_THRESHOLD then Pass
      else if total >= MARGINAL_THRESHOLD then Marginal
      else Reject
    else v
  }

  /** The record the JSON branch returns. */
  function JsonVerdict(o: JsonObject, text: string): VerdictRecord
    requires o.total.Some?
  {
    VerdictRecord(
      JsonCategory(o.total.value, StatedCategory(o.verdict)),
      o.total.value,
      FeedbackText(o.issues, o.adjustments),
      o.issues,
      o.adjustments,
      text)
  }

  /** `TOTAL:\s*(\d+)/50`, first match. */
  function TotalMarker(text: string): Option<nat>
  {
    SearchScoreMarker(text, "TOTAL:")
  }

  /**
   * `VERDICT:\s*(PASS|MARGINAL|REJECT)` with `re.IGNORECASE`, AT index `i`, upper-cased. The
   * three words start with different letters, so at most one alternative can match.
   */
  function VerdictMarkerAt(text: string, i: nat): (r: Option<Category>)
    ensures r != Some(Unknown)
  {
    if !OccursAtIgnoreCase(text, "VERDICT:", i) then None
    else
      var j := SkipSpaces(text, i + 8);
      if OccursAtIgnoreCase(text, "PASS", j) then Some(Pass)
      else if OccursAtIgnoreCase(text, "MARGINAL", j) then Some(Marginal)
      else if OccursAtIgnoreCase(text, "REJECT", j) then Some(Reject)
      else None
  }

  /**
   * The pattern matches at `i` iff `VERDICT:` (in any case) occurs there and one of the
   * three words (in any case) follows the white space; the category is the matched word
   * upper-cased.
   */
  lemma VerdictMarkerAtMeans(text: string, i: nat)
    ensures var r := VerdictMarkerAt(text, i);
            && (r.Some? ==> OccursAtIgnoreCase(text, "VERDICT:", i) &&
                            var j, w := SkipSpaces(text, i + 8), CategoryName(r.value);
                            j + |w| <= |text| && Upper(text[j..j + |w|]) == w)
            && (r.None? <==> !OccursAtIgnoreCase(text, "VERDICT:", i) ||
                             forall c :: c != Unknown ==> !OccursAtIgnoreCase(text, CategoryName(c), SkipSpaces(text, i + 8)))
  {
    if OccursAtIgnoreCase(text, "VERDICT:", i) {
      var j := SkipSpaces(text, i + 8);
      VerdictWordsAt(text, j);
      var r := VerdictMarkerAt(text, i);
      if r.Some? {
        VerdictWordUpper(text, j, r.value);
      }
    }
  }

  /** No word matches iff none of the three alternatives does. */
  lemma VerdictWordsAt(text: string, j: nat)
    ensures (forall c :: c != Unknown ==> !OccursAtIgnoreCase(text, CategoryName(c), j)) <==>
            !OccursAtIgnoreCase(text, "PASS", j) && !OccursAtIgnoreCase(text, "MARGINAL", j) &&
            !OccursAtIgnoreCase(text, "REJECT", j)
  {
    assert CategoryName(Pass) == "PASS" && CategoryName(Marginal) == "MARGINAL" && CategoryName(Reject) == "REJECT";
  }

  /** A word matched without regard to case is, upper-cased, the category's name. */
  lemma VerdictWordUpper(text: string, j: nat, c: Category)
    requires c != Unknown && OccursAtIgnoreCase(text, CategoryName(c), j)
    ensures var w := CategoryName(c); j + |w| <= |text| && Upper(text[j..j + |w|]) == w
  {
    UpperOfUpper(CategoryName(c));
  }

  /** The leftmost index at or after `from` where the VERDICT pattern matches. */
  function VerdictMarkerIndexFrom(text: string, from: nat): (r: Option<nat>)
    ensures r.Some? ==> from <= r.value && VerdictMarkerAt(text, r.value).Some?
    ensures r.Some? ==> forall j :: from <= j < r.value ==> VerdictMarkerAt(text, j).None?
    ensures r.None? ==> forall j :: from <= j ==> VerdictMarkerAt(text, j).None?
    decreases |text| - from
  {
    if from >= |text| then NoVerdictPastEnd(text, from); None
    else if VerdictMarkerAt(text, from).Some? then Some(from)
    else VerdictMarkerIndexFrom(text, from + 1)
  }

  /** The pattern cannot match once no character is left. */
  lemma NoVerdictPastEnd(text: string, from: nat)
    requires from >= |text|
    ensures forall j :: from <= j ==> VerdictMarkerAt(text, j).None?
  {
    forall j | from <= j
      ensures VerdictMarkerAt(text, j).None?
    {
      assert !OccursAtIgnoreCase(text, "VERDICT:", j);
    }
  }

  /** `re.search(r"VERDICT:\s*(PASS|MARGINAL|REJECT)", text, re.IGNORECASE)`, upper-cased. */
  function VerdictMarker(text: string): (r: Option<Category>)
    ensures r != Some(Unknown)
    ensures r.Some? ==> exists i: nat :: VerdictMarkerAt(text, i) == r &&
                                    forall j :: 0 <= j < i ==> VerdictMarkerAt(text, j).None?
    ensures r.None? ==> forall i :: 0 <= i ==> VerdictMarkerAt(text, i).None?
  {
    match VerdictMarkerIndexFrom(text, 0)
    case None => None
    case Some(i) => VerdictMarkerAt(text, i)
  }

  /**
   * `re.search(r"FEEDBACK:\s*(.+)", text, re.DOTALL)`, group 1 stripped, or "" without a
   * match. The greedy `\s*` gives back one character when only white space follows, so
   * that `.+` still matches.
   */
  function FeedbackMarker(text: string): string
  {
    match IndexOf(text, "FEEDBACK:")
    case None => ""
    case Some(i) => FeedbackGroup(text, i + 9)
  }

  /** Group 1 of the feedback pattern when the marker ends at `p`, stripped; "" when nothing follows. */
  function FeedbackGroup(text: string, p: nat): string
    requires p <= |text|
  {
    if p < |text| then
      var j := SkipSpaces(text, p);
      var g := if j < |text| then j else |text| - 1;
      Strip(text[g..])
    else ""
  }

  /** The regex branch's derivation, as written: a stated marker, else the elif chain on the total. */
  function MarkerCategory(total: int, stated: Option<Category>): Category
  {
    match stated
    case Some(v) => v
    case None =>
      if total >= PASS_THRESHOLD then Pass
      else if total >= MARGINAL_THRESHOLD then Marginal
      else if total > 0 then Reject
      else Unknown
  }

  /** The record the regex fallback returns. */
  function MarkerVerdict(text: string): VerdictRecord
  {
    var total := TotalMarker(text).GetOr(0);
    VerdictRecord(MarkerCategory(total, VerdictMarker(text)), total, FeedbackMarker(text), [], [], text)
  }

  /**
   * What `parse_verdict` does: an exception from reading the JSON object escapes; else the
   * JSON branch's record when it succeeds, else the regex fallback's.
   */
  function VerdictOf(text: string, loads: Loads): ParseOutcome
  {
    match JsonReadError(text, loads)
    case Some(m) => Throws(m)
    case None =>
      match JsonObjectOf(text, loads)
      case Some(o) => Returns(JsonVerdict(o, text))
      case None => Returns(MarkerVerdict(text))
  }

  /** `parse_verdict`: fills the record field by field, as the script fills its dictionary. */
  method ParseVerdict(text: string, loads: Loads) returns (r: ParseOutcome)
    ensures r == VerdictOf(text, loads)
  {
    var candidate := JsonCandidate(text);
    if candidate.Some? {
      var data := loads(candidate.value);
      if data.ReadError? {
        return Throws(data.message);
      }
      if data.Decoded? && data.obj.total.Some? {
        var record := FillFromJson(data.obj, text);
        return Returns(record);
      }
    }
    var record := FillFromMarkers(text);
    r := Returns(record);
  }

  /** The JSON branch of `parse_verdict`, field by field. */
  method FillFromJson(o: JsonObject, text: string) returns (r: VerdictRecord)
    requires o.total.Some?
    ensures r == JsonVerdict(o, text)
  {
    r := UnknownRecord(text);
    r := r.(total := o.total.value);
    var stated := StatedCategory(o.verdict);
    if stated.Some? {
      r := r.(verdict := stated.value);
    }
    r := r.(issues := o.issues, adjustments := o.adjustments);
    var parts: seq<string> := [];
    if r.issues != [] {
      parts := parts + ["Issues: " + Join("; ", r.issues)];
    }
    if r.adjustments != [] {
      parts := parts + ["Adjustments: " + Join("; ", r.adjustments)];
    }
    assert parts == FeedbackParts(o.issues, o.adjustments);
    r := r.(feedback := if parts != [] then Join(" | ", parts) else "");
    if r.verdict == Unknown && r.total > 0 {
      if r.total >= PASS_THRESHOLD {
        r := r.(verdict := Pass);
      } else if r.total >= MARGINAL_THRESHOLD {
        r := r.(verdict := Marginal);
      } else {
        r := r.(verdict := Reject);
      }
    }
  }

  /** The regex fallback of `parse_verdict`, field by field. */
  method FillFromMarkers(text: string) returns (r: VerdictRecord)
    ensures r == MarkerVerdict(text)
  {
    r := UnknownRecord(text);
    var totalMatch := TotalMarker(text);
    if totalMatch.Some? {
      r := r.(total := totalMatch.value);
    }
    var verdictMatch := VerdictMarker(text);
    if verdictMatch.Some? {
      r := r.(verdict := verdictMatch.value);
    } else if r.total >= PASS_THRESHOLD {
      r := r.(verdict := Pass);
    } else if r.total >= MARGINAL_THRESHOLD {
      r := r.(verdict := Marginal);
    } else if r.total > 0 {
      r := r.(verdict := Reject);
    }
    r := r.(feedback := FeedbackMarker(text));
  }

  // ---- Properties of parse_verdict ----

  /** Without a stated verdict both branches fall back on the same score rule. */
  lemma SameRuleInBothBranches(total: int)
    ensures JsonCategory(total, None) == Classify(total)
    ensures MarkerCategory(total, None) == Classify(total)
  {
  }

  /** A stated verdict overrides the score in both branches. */
  lemma StatedVerdictOverrides(total: int, c: Category)
    requires c != Unknown
    ensures JsonCategory(total, Some(c)) == c
    ensures MarkerCategory(total, Some(c)) == c
  {
  }

  /**
   * The JSON branch: its total, issues and adjustments are the object's, its feedback is
   * built from them alone, and its category is the stated one or the score's. No
   * `TOTAL:`, `VERDICT:` or `FEEDBACK:` marker plays a part.
   */
  lemma JsonBranch(text: string, loads: Loads)
    requires JsonObjectOf(text, loads).Some?
    ensures VerdictOf(text, loads).Returns?
    ensures var o := JsonObjectOf(text, loads).value;
            var r := VerdictOf(text, loads).record;
            && r.total == o.total.value
            && r.issues == o.issues && r.adjustments == o.adjustments
            && r.feedback == FeedbackText(o.issues, o.adjustments)
            && r.raw == text
            && r.verdict == (if StatedCategory(o.verdict).Some? then StatedCategory(o.verdict).value
                             else Classify(o.total.value))
  {
  }

  /** Two replies that carry the same JSON object give the same record, whatever markers surround it. */
  lemma JsonIgnoresMarkers(t1: string, t2: string, loads: Loads)
    requires JsonObjectOf(t1, loads).Some? && JsonObjectOf(t1, loads) == JsonObjectOf(t2, loads)
    ensures VerdictOf(t1, loads).Returns? && VerdictOf(t2, loads).Returns?
    ensures VerdictOf(t1, loads).record.(raw := "") == VerdictOf(t2, loads).record.(raw := "")
  {
  }

  /** Stripping skips a leading run of white space. */
  lemma {:induction false} StripStartSkips(s: string, k: nat)
    requires k < |s|
    requires forall i :: 0 <= i < k ==> IsSpace(s[i])
    ensures StripStart(s) == StripStart(s[k..])
    decreases k
  {
    if k > 0 {
      assert s[1..][k - 1..] == s[k..];
      StripStartSkips(s[1..], k - 1);
    }
  }

  /** The fallback's feedback is the stripped text after the first `FEEDBACK:`, or "" without one. */
  lemma FeedbackIsStrippedRemainder(text: string)
    ensures FeedbackMarker(text) ==
              match IndexOf(text, "FEEDBACK:")
              case None => ""
              case Some(i) => Strip(text[i + 9..])
  {
    match IndexOf(text, "FEEDBACK:")
    case None =>
    case Some(i) =>
      FeedbackGroupIsStripped(text, i + 9);
  }

  /** Starting from the first non-space (or the last character) strips to the same text as starting at `p`. */
  lemma FeedbackGroupIsStripped(text: string, p: nat)
    requires p <= |text|
    ensures FeedbackGroup(text, p) == Strip(text[p..])
  {
    if p < |text| {
      var rest := text[p..];
      var j := SkipSpaces(text, p);
      var g := if j < |text| then j else |text| - 1;
      var k := g - p;
      assert 0 <= k < |rest|;
      assert forall m :: 0 <= m < k ==> rest[m] == text[p + m];
      assert rest[k..] == text[g..];
      StripStartSkips(rest, k);
    } else {
      assert text[p..] == [];
    }
  }

  /**
   * The regex fallback: the total is the first `TOTAL: n/50` or 0, the category the
   * stated marker's or the score's, the feedback the stripped remainder after `FEEDBACK:`,
   * and no issues or adjustments.
   */
  lemma MarkerBranch(text: string, loads: Loads)
    requires JsonObjectOf(text, loads).None? && JsonReadError(text, loads).None?
    ensures VerdictOf(text, loads).Returns?
    ensures var r := VerdictOf(text, loads).record;
            && r.total == TotalMarker(text).GetOr(0)
            && r.verdict == (if VerdictMarker(text).Some? then VerdictMarker(text).value
                             else Classify(r.total))
            && r.feedback == (match IndexOf(text, "FEEDBACK:")
                              case None => ""
                              case Some(i) => Strip(text[i + 9..]))
            && r.issues == [] && r.adjustments == [] && r.raw == text
  {
    FeedbackIsStrippedRemainder(text);
  }

  /** Without a JSON candidate the regex fallback decides, whatever `json.loads` would do. */
  lemma NoCandidateMeansMarkers(text: string, loads: Loads)
    requires JsonCandidate(text).None?
    ensures VerdictOf(text, loads) == Returns(MarkerVerdict(text))
  {
  }

  /** A reply from which nothing can be extracted gives UNKNOWN with total 0 and everything else empty. */
  lemma NothingExtracted(text: string, loads: Loads)
    requires JsonObjectOf(text, loads).None? && JsonReadError(text, loads).None?
    requires TotalMarker(text).None? && VerdictMarker(text).None? && IndexOf(text, "FEEDBACK:").None?
    ensures VerdictOf(text, loads) == Returns(UnknownRecord(text))
  {
  }

  const REGEX_EXAMPLE: string := "TOTAL: 22/50\nVERDICT: REJECT"

  lemma RegexExampleTotal()
    ensures TotalMarker(REGEX_EXAMPLE) == Some(22)
  {
    var text := REGEX_EXAMPLE;
    RegexExampleTotalScan();
    RegexExampleTotalLiterals();
    assert DigitsValue("22") == 22 by { assert "22"[..1] == "2"; }
    assert ScoreMarkerAt(text, "TOTAL:", 0) == Some(22);
  }

  /** How far `\s*` and `\d+` reach after `TOTAL:` in the example. */
  lemma RegexExampleTotalScan()
    ensures SkipSpaces(REGEX_EXAMPLE, 6) == 7 && SkipDigits(REGEX_EXAMPLE, 7) == 9
  {
    var text := REGEX_EXAMPLE;
    assert text[6] == ' ' && text[7] == '2' && text[8] == '2' && text[9] == '/';
    assert SkipSpaces(text, 7) == 7;
    assert SkipDigits(text, 9) == 9;
    assert SkipDigits(text, 8) == 9;
  }

  /** The literal parts of the example's total marker. */
  lemma RegexExampleTotalLiterals()
    ensures OccursAt(REGEX_EXAMPLE, "TOTAL:", 0) && OccursAt(REGEX_EXAMPLE, "/50", 9)
    ensures REGEX_EXAMPLE[7..9] == "22"
  {
    var text := REGEX_EXAMPLE;
    assert text[0..6] == "TOTAL:";
    assert text[9..12] == "/50";
  }

  lemma RegexExampleVerdictAt()
    ensures VerdictMarkerAt(REGEX_EXAMPLE, 13) == Some(Reject)
  {
    var text := REGEX_EXAMPLE;
    assert text[13..21] == "VERDICT:";
    UpperOfUpper("VERDICT:");
    assert OccursAtIgnoreCase(text, "VERDICT:", 13);
    assert text[21] == ' ' && text[22] == 'R';
    assert SkipSpaces(text, 22) == 22;
    assert SkipSpaces(text, 21) == 22;
    assert Upper(text[22..26])[0] == 'R' && Upper("PASS")[0] == 'P';
    assert !OccursAtIgnoreCase(text, "MARGINAL", 22);
    assert text[22..28] == "REJECT";
    UpperOfUpper("REJECT");
  }

  lemma RegexExampleNoEarlierVerdict()
    ensures forall j :: 0 <= j < 13 ==> VerdictMarkerAt(REGEX_EXAMPLE, j).None?
  {
    var text := REGEX_EXAMPLE;
    var head := "TOTAL: 22/50\n";
    assert text[..13] == head;
    forall j | 0 <= j < 13 ensures VerdictMarkerAt(text, j).None? {
      assert text[j] == head[j] && head[j] in head;
      assert UpperChar(text[j]) != 'V';
      assert Upper("VERDICT:")[0] == 'V';
    }
  }

  lemma RegexExampleVerdict()
    ensures VerdictMarker(REGEX_EXAMPLE) == Some(Reject)
  {
    RegexExampleVerdictAt();
    RegexExampleNoEarlierVerdict();
  }

  /** With no JSON object, `TOTAL: 22/50` and `VERDICT: REJECT` give 22 and REJECT. */
  lemma RegexExample(loads: Loads)
    ensures VerdictOf(REGEX_EXAMPLE, loads).Returns?
    ensures VerdictOf(REGEX_EXAMPLE, loads).record.total == 22
    ensures VerdictOf(REGEX_EXAMPLE, loads).record.verdict == Reject
  {
    RegexExampleHasNoJson();
    NoCandidateMeansMarkers(REGEX_EXAMPLE, loads);
    RegexExampleTotal();
    RegexExampleVerdict();
  }

  lemma RegexExampleHasNoJson()
    ensures JsonCandidate(REGEX_EXAMPLE).None?
  {
    assert IndexOfChar(REGEX_EXAMPLE, '{').None? by {
      assert forall j :: 0 <= j < |REGEX_EXAMPLE| ==> REGEX_EXAMPLE[j] != '{';
    }
  }


  // ---- verify_image ----

  /** What the model call of `verify_image` gives back. */
  datatype VerifyReply =
    | Raised(message: string)         // generate_content raised; the message is str(e)
    | NoCandidates(text: string)      // response.candidates[0].content.parts failed; text is the response text
    | Parts(texts: seq<string>)       // the text of each part, "" for a part without text

  /** The reference photos: up to two annotated photos, or up to two raw space photos when there are none. */
  function ReferencePhotos(annotated: seq<string>, spacePhotos: seq<string>): (refs: seq<string>)
    ensures |refs| <= 2
    ensures refs == [] <==> annotated == [] && spacePhotos == []
    ensures annotated != [] ==> |refs| <= |annotated| && refs == annotated[..|refs|]
    ensures annotated == [] ==> |refs| <= |spacePhotos| && refs == spacePhotos[..|refs|]
  {
    var source := if annotated != [] then annotated else spacePhotos;
    if |source| <= 2 then source else source[..2]
  }

  /** The result used when there is nothing to compare against: an automatic pass at full marks. */
  const NO_REFERENCE_VERDICT: VerdictRecord :=
    VerdictRecord(Pass, 50, "No reference to verify against", [], [], "")

  function Concat(texts: seq<string>): string
  {
    if texts == [] then "" else Concat(texts[..|texts| - 1]) + texts[|texts| - 1]
  }

  /**
   * `verify_image`. Without reference photos it returns the automatic pass and the reply
   * plays no part; a failed call gives UNKNOWN with total 0; otherwise the parts' texts
   * are joined and parsed.
   */
  method VerifyImage(annotated: seq<string>, spacePhotos: seq<string>, reply: VerifyReply, loads: Loads)
    returns (r: VerdictRecord)
    ensures ReferencePhotos(annotated, spacePhotos) == [] ==> r == NO_REFERENCE_VERDICT
    ensures ReferencePhotos(annotated, spacePhotos) != [] ==>
              match reply
              case Raised(e) => r == VerdictRecord(Unknown, 0, e, [], [], "")
              case NoCandidates(t) => r == VerdictRecord(Unknown, 0, "No valid response from Gemini", [], [], t)
              case Parts(ts) =>
                match VerdictOf(Concat(ts), loads)
                case Returns(v) => r == v
                case Throws(e) => r == VerdictRecord(Unknown, 0, e, [], [], "")
  {
    var refs := ReferencePhotos(annotated, spacePhotos);
    if refs == [] {
      return NO_REFERENCE_VERDICT;
    }
    match reply
    case Raised(e) =>
      r := VerdictRecord(Unknown, 0, e, [], [], "");
    case NoCandidates(t) =>
      r := VerdictRecord(Unknown, 0, "No valid response from Gemini", [], [], t);
    case Parts(ts) =>
      var responseText := "";
      for k := 0 to |ts|
        invariant responseText == Concat(ts[..k])
      {
        assert ts[..k + 1][..k] == ts[..k];
        if ts[k] != "" {
          responseText := responseText + ts[k];
        }
      }
      assert ts[..|ts|] == ts;
      var parsed := ParseVerdict(responseText, loads);
      match parsed
      case Returns(v) =>
        r := v;
      case Throws(e) =>
        r := VerdictRecord(Unknown, 0, e, [], [], "");
  }

  // ---- handle_verdict ----

  /** `s[:n]`. */
  function Take(s: string, n: nat): (t: string)
    ensures |t| <= n && |t| <= |s| && t == s[..|t|]
    ensures |s| <= n ==> t == s
    ensures |s| > n ==> |t| == n
  {
    if |s| <= n then s else s[..n]
  }

  const RECORD_MARKER: string := "\n## "

  /** The header line of a record, after its marker: the image name and the verdict. */
  function HeaderLine(name: string, r: VerdictRecord): string
  {
    name + " - " + CategoryName(r.verdict)
  }

  /** The score line, with its newline. */
  function ScoreWrite(r: VerdictRecord): string
  {
    "- Score: " + IntToString(r.total) + "/50\n"
  }

  /** The optional issues, adjustments and feedback lines: each written only when it is not empty. */
  function DetailWrites(r: VerdictRecord): string
  {
    (if r.issues != [] then "- Issues: " + Join(", ", r.issues) + "\n" else "")
    + (if r.adjustments != [] then "- Adjustments: " + Join(", ", r.adjustments) + "\n" else "")
    + (if r.feedback != "" then "- Feedback: " + r.feedback + "\n" else "")
  }

  /** The raw reply, cut to its first 500 characters, in a fenced block. */
  function RawWrite(r: VerdictRecord): string
  {
    "- Raw:\n```\n" + Take(r.raw, 500) + "\n```\n"
  }

  /** The verify-log entry `handle_verdict` appends for image `name`, write by write. */
  function LogRecord(name: string, r: VerdictRecord): string
  {
    RECORD_MARKER + HeaderLine(name, r) + "\n" + ScoreWrite(r) + DetailWrites(r) + RawWrite(r)
  }

  /** What `handle_verdict` does: the verdict it returns, whether it moves the image to rejected/, and the log entry. */
  datatype Handled = Handled(verdict: Category, movedToRejected: bool, logEntry: string)

  function HandleVerdict(name: string, r: VerdictRecord): (h: Handled)
    ensures h.verdict == r.verdict
    ensures h.movedToRejected <==> r.verdict == Reject
    ensures StartsWith(h.logEntry, "\n## " + name + " - " + CategoryName(r.verdict) + "\n- Score: "
                                     + IntToString(r.total) + "/50\n")
    ensures var tail := "- Raw:\n```\n" + Take(r.raw, 500) + "\n```\n";
            |tail| <= |h.logEntry| && h.logEntry[|h.logEntry| - |tail|..] == tail
  {
    var head := RECORD_MARKER + HeaderLine(name, r) + "\n" + ScoreWrite(r);
    assert head == "\n## " + name + " - " + CategoryName(r.verdict) + "\n- Score: " + IntToString(r.total) + "/50\n";
    var entry := LogRecord(name, r);
    assert entry == head + DetailWrites(r) + RawWrite(r);
    FramedBy(head, DetailWrites(r), RawWrite(r));
    Handled(r.verdict, r.verdict == Reject, entry)
  }

  lemma FramedBy(a: string, b: string, c: string)
    ensures StartsWith(a + b + c, a)
    ensures |c| <= |a + b + c| && (a + b + c)[|a + b + c| - |c|..] == c
  {
    assert (a + b + c)[..|a|] == a;
  }
}
