/**
 * Generation of one design image (scripts/generate.py): the next version number for a
 * zone, the assembly of the text prompt, and the decisions of `generate` (unknown zone,
 * missing zone prompt, failed call, which part of the reply is saved and under what name).
 */
module Generate {
  import opened Wrappers
  import opened Text
  import opened Zones

  // ---- get_next_version ----

  /** The glob `{zone}_v*.jpg`: a name in the visuals folder that `get_next_version` looks at. */
  predicate MatchesVersionGlob(zone: string, name: string)
  {
    var prefix := zone + "_v";
    |prefix| + 4 <= |name| && name[..|prefix|] == prefix && name[|name| - 4..] == ".jpg"
  }

  /** The names of a folder listing that the glob picks up, in listing order. */
  function VersionGlob(zone: string, listing: seq<string>): (r: seq<string>)
    ensures forall n :: n in r ==> MatchesVersionGlob(zone, n)
    ensures forall n :: n in listing && MatchesVersionGlob(zone, n) ==> n in r
    ensures forall n :: n in r ==> n in listing
    ensures |r| <= |listing|
  {
    if listing == [] then []
    else
      var rest := VersionGlob(zone, listing[..|listing| - 1]);
      var last := listing[|listing| - 1];
      assert listing == listing[..|listing| - 1] + [last];
      if MatchesVersionGlob(zone, last) then rest + [last] else rest
  }

  /** Each name is picked up as often as the listing holds it when it matches the glob, and never otherwise. */
  lemma {:induction false} VersionGlobCounts(zone: string, listing: seq<string>)
    ensures forall n :: multiset(VersionGlob(zone, listing))[n] ==
                          if MatchesVersionGlob(zone, n) then multiset(listing)[n] else 0
  {
    if listing != [] {
      var front, last := listing[..|listing| - 1], listing[|listing| - 1];
      VersionGlobCounts(zone, front);
      assert listing == front + [last];
      assert multiset(listing) == multiset(front) + multiset{last};
    }
  }

  /** `Path(name).stem` for a name ending in ".jpg". */
  function Stem(name: string): string
    requires |name| >= 4
  {
    name[..|name| - 4]
  }

  /** `_v(\d+)` AT index `i` of a stem: the number, if the pattern matches there. */
  function VersionAt(stem: string, i: nat): Option<nat>
  {
    if OccursAt(stem, "_v", i) && i + 2 < |stem| && IsDigit(stem[i + 2]) then
      Some(DigitsValue(stem[i + 2..SkipDigits(stem, i + 2)]))
    else None
  }

  /** The leftmost index at or after `from` where `_v(\d+)` matches. */
  function VersionIndexFrom(stem: string, from: nat): (r: Option<nat>)
    ensures r.Some? ==> from <= r.value && VersionAt(stem, r.value).Some?
    ensures r.Some? ==> forall j :: from <= j < r.value ==> VersionAt(stem, j).None?
    ensures r.None? ==> forall j :: from <= j ==> VersionAt(stem, j).None?
    decreases |stem| - from
  {
    if from >= |stem| then None
    else if VersionAt(stem, from).Some? then Some(from)
    else VersionIndexFrom(stem, from + 1)
  }

  /** `re.search(r"_v(\d+)", stem)`, converted with `int`. */
  function VersionIn(stem: string): Option<nat>
  {
    match VersionIndexFrom(stem, 0)
    case None => None
    case Some(i) => VersionAt(stem, i)
  }

  /** The numbers collected from a list of names: one per name whose stem holds `_v<digits>`. */
  function VersionsOf(names: seq<string>): seq<nat>
  {
    if names == [] then []
    else
      var rest := VersionsOf(names[..|names| - 1]);
      var last := names[|names| - 1];
      if |last| >= 4 && VersionIn(Stem(last)).Some? then rest + [VersionIn(Stem(last)).value] else rest
  }

  /** The version numbers `get_next_version` finds for a zone in a folder listing. */
  function ParsedVersions(zone: string, listing: seq<string>): seq<nat>
  {
    VersionsOf(VersionGlob(zone, listing))
  }

  /** `max(numbers)`. */
  function MaxOf(ns: seq<nat>): (m: nat)
    requires ns != []
    ensures m in ns
    ensures forall n :: n in ns ==> n <= m
  {
    if |ns| == 1 then ns[0]
    else
      var rest := MaxOf(ns[1..]);
      assert forall n :: n in ns ==> n == ns[0] || n in ns[1..];
      if ns[0] > rest then ns[0] else rest
  }

  /** The number `get_next_version` returns: one past the largest version found, or 1. */
  function NextVersion(zone: string, listing: seq<string>): nat
  {
    var ns := ParsedVersions(zone, listing);
    if ns == [] then 1 else MaxOf(ns) + 1
  }

  /** `get_next_version`: scans the names the glob picks up and takes the maximum. */
  method GetNextVersion(zone: string, listing: seq<string>) returns (v: nat)
    ensures v == NextVersion(zone, listing)
    ensures ParsedVersions(zone, listing) == [] ==> v == 1
    ensures v >= 1 && forall n :: n in ParsedVersions(zone, listing) ==> n < v
    ensures v == 1 || v - 1 in ParsedVersions(zone, listing)
  {
    var existing := VersionGlob(zone, listing);
    if existing == [] {
      return 1;
    }
    var numbers: seq<nat> := [];
    for k := 0 to |existing|
      invariant numbers == VersionsOf(existing[..k])
    {
      assert existing[..k + 1][..k] == existing[..k];
      var f := existing[k];
      var found := if |f| >= 4 then VersionIn(Stem(f)) else None;
      if found.Some? {
        numbers := numbers + [found.value];
      }
    }
    assert existing[..|existing|] == existing;
    v := if numbers != [] then MaxOf(numbers) + 1 else 1;
  }

  /** The file name `generate` saves version `version` of a zone under. */
  function OutputName(zone: Zone, version: nat): string
  {
    ZoneName(zone) + "_v" + NatToString(version) + ".jpg"
  }

  /** No zone name contains an underscore. */
  lemma ZoneNameHasNoUnderscore(z: Zone)
    ensures forall i :: 0 <= i < |ZoneName(z)| ==> ZoneName(z)[i] != '_'
  {
  }

  /** `_v<digits>` after a prefix without underscores is the first and only match of `_v(\d+)`. */
  lemma VersionAfterPrefix(p: string, digits: string)
    requires forall i :: 0 <= i < |p| ==> p[i] != '_'
    requires digits != [] && AllDigits(digits)
    ensures VersionIn(p + "_v" + digits) == Some(DigitsValue(digits))
  {
    VersionAtPrefixEnd(p, digits);
    NoVersionInPrefix(p, digits);
  }

  /** The pattern matches right after the prefix, and reads the whole run of digits. */
  lemma VersionAtPrefixEnd(p: string, digits: string)
    requires digits != [] && AllDigits(digits)
    ensures VersionAt(p + "_v" + digits, |p|) == Some(DigitsValue(digits))
  {
    var stem := p + "_v" + digits;
    var i := |p|;
    assert stem[i..i + 2] == "_v";
    assert OccursAt(stem, "_v", i);
    assert stem[i + 2..] == digits;
    DigitsToEnd(stem, i + 2, digits);
    assert stem[i + 2..|stem|] == digits;
  }

  /** A suffix made only of digits is read to the end. */
  lemma DigitsToEnd(s: string, q: nat, digits: string)
    requires q <= |s| && s[q..] == digits && AllDigits(digits)
    ensures SkipDigits(s, q) == |s|
    ensures q < |s| ==> IsDigit(s[q])
  {
    assert forall k :: q <= k < |s| ==> s[k] == digits[k - q];
  }

  /** Inside a prefix without underscores the pattern cannot start. */
  lemma NoVersionInPrefix(p: string, digits: string)
    requires forall i :: 0 <= i < |p| ==> p[i] != '_'
    ensures forall j :: 0 <= j < |p| ==> VersionAt(p + "_v" + digits, j).None?
  {
    var stem := p + "_v" + digits;
    forall j | 0 <= j < |p| ensures VersionAt(stem, j).None? {
      assert stem[j] == p[j];
      assert j + 2 <= |stem| ==> stem[j..j + 2][0] == stem[j];
      assert !OccursAt(stem, "_v", j);
    }
  }

  /** The stem of a saved image reads back as its version number. */
  lemma VersionOfOutputName(z: Zone, version: nat)
    ensures |OutputName(z, version)| >= 4
    ensures VersionIn(Stem(OutputName(z, version))) == Some(version)
  {
    var stem := ZoneName(z) + "_v" + NatToString(version);
    assert OutputName(z, version) == stem + ".jpg";
    assert Stem(OutputName(z, version)) == stem;
    ZoneNameHasNoUnderscore(z);
    VersionAfterPrefix(ZoneName(z), NatToString(version));
    NatToStringRoundTrip(version);
  }

  /**
   * Once version `v` of a zone is saved, the next version number is above `v`, as long as the
   * saved file stays in the visuals folder.
   */
  lemma NextVersionAfterSave(z: Zone, listing: seq<string>, version: nat)
    ensures NextVersion(ZoneName(z), listing + [OutputName(z, version)]) > version
  {
    var zone, name := ZoneName(z), OutputName(z, version);
    OutputNameMatches(z, version);
    VersionGlobSnoc(zone, listing, name);
    VersionOfOutputName(z, version);
    VersionsOfSnoc(VersionGlob(zone, listing), name);
    assert version in ParsedVersions(zone, listing + [name]);
  }

  /** The visuals listing after `shutil.move` has taken `name` out of the folder. */
  function Without(listing: seq<string>, name: string): (r: seq<string>)
    ensures name !in r
    ensures forall n :: n in r <==> n in listing && n != name
  {
    if listing == [] then []
    else
      var rest := Without(listing[..|listing| - 1], name);
      var last := listing[|listing| - 1];
      assert listing == listing[..|listing| - 1] + [last];
      if last == name then rest else rest + [last]
  }

  lemma {:induction false} WithoutAbsent(listing: seq<string>, name: string)
    requires name !in listing
    ensures Without(listing, name) == listing
  {
    if listing != [] {
      var front := listing[..|listing| - 1];
      assert listing == front + [listing[|listing| - 1]];
      WithoutAbsent(front, name);
    }
  }

  /** Every name the versions are read from contributes its version. */
  lemma {:induction false} VersionsOfHas(names: seq<string>)
    ensures forall n :: n in names && |n| >= 4 && VersionIn(Stem(n)).Some? ==> VersionIn(Stem(n)).value in VersionsOf(names)
  {
    if names != [] {
      var front, last := names[..|names| - 1], names[|names| - 1];
      assert names == front + [last];
      VersionsOfHas(front);
    }
  }

  /** The name the next version would be saved under is not yet in the listing. */
  lemma NextNameIsNew(z: Zone, listing: seq<string>)
    ensures OutputName(z, NextVersion(ZoneName(z), listing)) !in listing
  {
    var zone, v := ZoneName(z), NextVersion(ZoneName(z), listing);
    OutputNameMatches(z, v);
    VersionOfOutputName(z, v);
    VersionsOfHas(VersionGlob(zone, listing));
  }

  /**
   * `handle_verdict` moves a rejected image out of the visuals folder, and the glob looks
   * only there: the next attempt gets the rejected image's version number again.
   */
  lemma RejectReusesVersion(z: Zone, listing: seq<string>)
    ensures var v := NextVersion(ZoneName(z), listing);
            NextVersion(ZoneName(z), Without(listing + [OutputName(z, v)], OutputName(z, v))) == v
  {
    var v := NextVersion(ZoneName(z), listing);
    var name := OutputName(z, v);
    assert (listing + [name])[..|listing|] == listing;
    assert Without(listing + [name], name) == Without(listing, name);
    NextNameIsNew(z, listing);
    WithoutAbsent(listing, name);
  }

  lemma VersionGlobSnoc(zone: string, listing: seq<string>, n: string)
    ensures VersionGlob(zone, listing + [n])
            == VersionGlob(zone, listing) + (if MatchesVersionGlob(zone, n) then [n] else [])
  {
    assert (listing + [n])[..|listing|] == listing;
  }

  lemma VersionsOfSnoc(names: seq<string>, n: string)
    requires |n| >= 4 && VersionIn(Stem(n)).Some?
    ensures VersionsOf(names + [n]) == VersionsOf(names) + [VersionIn(Stem(n)).value]
  {
    assert (names + [n])[..|names|] == names;
  }

  /** Every saved image is picked up by its zone's glob. */
  lemma OutputNameMatches(z: Zone, version: nat)
    ensures MatchesVersionGlob(ZoneName(z), OutputName(z, version))
  {
    var zone, name := ZoneName(z), OutputName(z, version);
    assert name[..|zone + "_v"|] == zone + "_v";
    assert name[|name| - 4..] == ".jpg";
  }

  /** Two saved versions `a` and `b` of a zone and an unrelated file: the next one is one past the larger. */
  lemma NextVersionOfTwo(z: Zone, a: nat, b: nat, other: string)
    requires !MatchesVersionGlob(ZoneName(z), other)
    ensures NextVersion(ZoneName(z), [OutputName(z, a), other, OutputName(z, b)]) == (if a < b then b else a) + 1
  {
    var na, nb := OutputName(z, a), OutputName(z, b);
    GlobOfTwo(z, a, b, other);
    ParsedOfTwo(z, a, b);
    assert ParsedVersions(ZoneName(z), [na, other, nb]) == [a, b];
  }

  lemma GlobOfTwo(z: Zone, a: nat, b: nat, other: string)
    requires !MatchesVersionGlob(ZoneName(z), other)
    ensures VersionGlob(ZoneName(z), [OutputName(z, a), other, OutputName(z, b)]) == [OutputName(z, a), OutputName(z, b)]
  {
    var zone := ZoneName(z);
    var na, nb := OutputName(z, a), OutputName(z, b);
    OutputNameMatches(z, a);
    OutputNameMatches(z, b);
    VersionGlobSnoc(zone, [], na);
    VersionGlobSnoc(zone, [na], other);
    VersionGlobSnoc(zone, [na, other], nb);
    assert [] + [na] == [na] && [na] + [other] == [na, other] && [na, other] + [nb] == [na, other, nb];
  }

  lemma ParsedOfTwo(z: Zone, a: nat, b: nat)
    ensures VersionsOf([OutputName(z, a), OutputName(z, b)]) == [a, b]
  {
    VersionOfOutputName(z, a);
    VersionOfOutputName(z, b);
    VersionsOfTwo(OutputName(z, a), OutputName(z, b));
  }

  lemma VersionsOfTwo(na: string, nb: string)
    requires |na| >= 4 && VersionIn(Stem(na)).Some?
    requires |nb| >= 4 && VersionIn(Stem(nb)).Some?
    ensures VersionsOf([na, nb]) == [VersionIn(Stem(na)).value, VersionIn(Stem(nb)).value]
  {
    VersionsOfSnoc([], na);
    VersionsOfSnoc([na], nb);
    assert [] + [na] == [na] && [na] + [nb] == [na, nb];
  }

  /** With `shade_v1.jpg` and `shade_v3.jpg` saved, the next shade image is version 4. */
  lemma NextVersionExample()
    ensures NextVersion("shade", ["shade_v1.jpg", "notes.md", "shade_v3.jpg"]) == 4
  {
    assert OutputName(Shade, 1) == "shade_v1.jpg";
    assert OutputName(Shade, 3) == "shade_v3.jpg";
    NextVersionOfTwo(Shade, 1, 3, "notes.md");
  }

  // ---- prompt assembly ----

  const RULES_HEADER: string := "=== GARDEN RULES ===\n"
  const NOTES_HEADER: string := "=== SPACE ANNOTATIONS ===\n"
  const TASK_HEADER: string := "=== GENERATION TASK ===\n"

  /** The `prompt_parts` list: rules if there is a system prompt, annotations if there are notes, the task last. */
  function PromptSections(system: string, notes: seq<string>, zonePrompt: string): seq<string>
  {
    (if system != "" then [RULES_HEADER + system] else [])
    + (if notes != [] then [NOTES_HEADER + Join("\n---\n", notes)] else [])
    + [TASK_HEADER + zonePrompt]
  }

  lemma {:induction false} JoinEndsWithLast(sep: string, xs: seq<string>)
    requires xs != []
    ensures var j, x := Join(sep, xs), xs[|xs| - 1];
            |x| <= |j| && j[|j| - |x|..] == x
  {
    if |xs| > 1 {
      JoinEndsWithLast(sep, xs[1..]);
    }
  }

  lemma JoinStartsWithFirst(sep: string, xs: seq<string>)
    requires |xs| >= 2
    ensures StartsWith(Join(sep, xs), xs[0] + sep)
  {
  }

  /** The prompt text `generate` sends, in section order, joined by blank lines. */
  method AssemblePrompt(system: string, notes: seq<string>, zonePrompt: string) returns (prompt: string)
    ensures prompt == Join("\n\n", PromptSections(system, notes, zonePrompt))
    ensures var task := TASK_HEADER + zonePrompt;
            |task| <= |prompt| && prompt[|prompt| - |task|..] == task
    ensures system != "" ==> StartsWith(prompt, RULES_HEADER + system + "\n\n")
    ensures system == "" && notes != [] ==>
              StartsWith(prompt, NOTES_HEADER + Join("\n---\n", notes) + "\n\n")
    ensures system == "" && notes == [] ==> prompt == TASK_HEADER + zonePrompt
  {
    var parts: seq<string> := [];
    if system != "" {
      parts := parts + [RULES_HEADER + system];
    }
    if notes != [] {
      parts := parts + [NOTES_HEADER + Join("\n---\n", notes)];
    }
    parts := parts + [TASK_HEADER + zonePrompt];
    prompt := Join("\n\n", parts);
    JoinEndsWithLast("\n\n", parts);
    if |parts| >= 2 {
      JoinStartsWithFirst("\n\n", parts);
    }
  }

  // ---- generate ----

  /** One part of the model's reply: inline data with its MIME type, and text ("" when absent). */
  datatype Part = Part(inlineMime: Option<string>, text: string)

  /** What `generate_content` gives back: an exception (including a reply with no candidate), or the parts. */
  datatype GenReply = GenRaised | GenParts(parts: seq<Part>)

  predicate IsImagePart(p: Part)
  {
    p.inlineMime.Some? && StartsWith(p.inlineMime.value, "image/")
  }

  /** The result of `generate`: the saved file's name and the index of the part saved, or nothing. */
  datatype Generated = Generated(fileName: string, savedPart: nat)

  /**
   * `generate`. `system` and `zonePrompt` are what `load_prompt` read ("" for a missing
   * file), `notes` the annotation notes, `listing` the visuals folder at the time of saving,
   * and `call` the image model, which answers the prompt text. `saveOk` says whether opening
   * the first image part with PIL, converting and saving it, and appending to the generation
   * log all complete; when one of them raises, `generate` returns None.
   */
  method GenerateDesign(zone: string, system: string, zonePrompt: string, notes: seq<string>,
                        listing: seq<string>, call: string -> GenReply, saveOk: bool)
    returns (out: Option<Generated>)
    ensures ParseZone(zone).None? ==> out.None?
    ensures zonePrompt == "" ==> out.None?
    ensures ParseZone(zone).Some? && zonePrompt != "" ==>
              var reply := call(Join("\n\n", PromptSections(system, notes, zonePrompt)));
              match reply
              case GenRaised => out.None?
              case GenParts(ps) =>
                && (out.None? <==> !saveOk || forall k :: 0 <= k < |ps| ==> !IsImagePart(ps[k]))
                && (out.Some? ==>
                      && out.value.savedPart < |ps| && IsImagePart(ps[out.value.savedPart])
                      && (forall k :: 0 <= k < out.value.savedPart ==> !IsImagePart(ps[k]))
                      && out.value.fileName == OutputName(ParseZone(zone).value, NextVersion(zone, listing)))
  {
    var z := ParseZone(zone);
    if z.None? {
      return None;
    }
    if zonePrompt == "" {
      return None;
    }
    var prompt := AssemblePrompt(system, notes, zonePrompt);
    var reply := call(prompt);
    if reply.GenRaised? {
      return None;
    }
    var version := GetNextVersion(zone, listing);
    var parts := reply.parts;
    for k := 0 to |parts|
      invariant forall j :: 0 <= j < k ==> !IsImagePart(parts[j])
    {
      if IsImagePart(parts[k]) {
        if !saveOk {
          return None;
        }
        return Some(Generated(OutputName(z.value, version), k));
      }
    }
    return None;
  }
}
