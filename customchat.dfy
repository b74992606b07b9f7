/** The `/customchat` command (custom_aider/commands/customchat_command.py): `@text-<word>`
    references in a message are replaced by their expansions from the keyword table
    before the message is sent to the host's ask/architect/code command. */
module CustomChat {
  import opened Util
  import opened Ordering
  import opened Host

  const Marker := "@text-"

  /** One match of the pattern `@text-(\w+)`: its span and the captured keyword. */
  datatype Match = Match(start: nat, end: nat, keyword: string)

  /** The pattern can match at `i`: the marker followed by at least one word character. */
  predicate MatchAt(text: string, i: int) {
    0 <= i && i + 7 <= |text| && text[i..i + 6] == Marker && IsWordChar(text[i + 6])
  }

  /** The keyword the pattern captures at a match position. */
  function KeywordAt(text: string, i: int): (w: string)
    requires MatchAt(text, i)
    ensures w != [] && forall k :: 0 <= k < |w| ==> IsWordChar(w[k])
  {
    text[i + 6..WordRunEnd(text, i + 6)]
  }

  /** `m` is the match the pattern produces when it starts at `m.start`. */
  predicate IsMatch(text: string, m: Match) {
    MatchAt(text, m.start) && m.end == WordRunEnd(text, m.start + 6) && m.keyword == KeywordAt(text, m.start)
  }

  function Starts(ms: seq<Match>): set<int> {
    set k | 0 <= k < |ms| :: ms[k].start as int
  }

  /** Spans are non-empty, lie after `from`, inside the text and do not overlap, left to right. */
  predicate Fits(text: string, ms: seq<Match>, from: nat) {
    && (forall k :: 0 <= k < |ms| ==> from <= ms[k].start < ms[k].end <= |text|)
    && (forall a, b :: 0 <= a < b < |ms| ==> ms[a].end <= ms[b].start)
  }

  /** A match position holds the `@` of the marker, which is not a word character. */
  lemma MatchAtIsMarker(text: string, p: int)
    requires MatchAt(text, p)
    ensures text[p] == '@'
  {
    assert text[p..p + 6][0] == text[p];
  }

  /** No match can start inside another match: the marker's letters and the keyword's
      word characters are not `@`. */
  lemma NoMatchInside(text: string, i: nat)
    requires MatchAt(text, i)
    ensures forall p :: i < p < WordRunEnd(text, i + 6) ==> !MatchAt(text, p)
  {
    var e := WordRunEnd(text, i + 6);
    forall p | i < p < e ensures !MatchAt(text, p) {
      assert text[p] != '@' by {
        if p < i + 6 {
          assert text[i..i + 6][p - i] == text[p];
        }
      }
      if MatchAt(text, p) { MatchAtIsMarker(text, p); }
    }
  }

  lemma StartsCons(m: Match, rest: seq<Match>)
    ensures Starts([m] + rest) == {m.start as int} + Starts(rest)
  {
    var ms := [m] + rest;
    assert ms[0] == m;
    forall p | p in Starts(ms) ensures p in {m.start as int} + Starts(rest) {
      var k :| 0 <= k < |ms| && ms[k].start == p;
      if k > 0 { assert rest[k - 1] == ms[k]; }
    }
    forall p | p in Starts(rest) ensures p in Starts(ms) {
      var k :| 0 <= k < |rest| && rest[k].start == p;
      assert ms[k + 1] == rest[k];
    }
  }

  lemma FitsCons(text: string, m: Match, rest: seq<Match>, from: nat)
    requires from <= m.start < m.end <= |text| && Fits(text, rest, m.end)
    ensures Fits(text, [m] + rest, from)
  {
    var ms := [m] + rest;
    forall a, b | 0 <= a < b < |ms| ensures ms[a].end <= ms[b].start {
      assert ms[b] == rest[b - 1];
      if a > 0 { assert ms[a] == rest[a - 1]; }
    }
  }

  /** `re.finditer(r'@text-(\w+)', text)` from index `i`: every match, left to right. */
  function MatchesFrom(text: string, i: nat): (ms: seq<Match>)
    requires i <= |text|
    decreases |text| - i
    ensures forall k :: 0 <= k < |ms| ==> IsMatch(text, ms[k])
    ensures Fits(text, ms, i)
    ensures forall p :: i <= p < |text| ==> (MatchAt(text, p) <==> p in Starts(ms))
    ensures forall p :: p in Starts(ms) ==> i <= p < |text|
  {
    if i == |text| then []
    else if MatchAt(text, i) then
      var e := WordRunEnd(text, i + 6);
      var m := Match(i, e, KeywordAt(text, i));
      var rest := MatchesFrom(text, e);
      MatchesCons(text, m, rest);
      [m] + rest
    else
      MatchesFrom(text, i + 1)
  }

  /** A match at `m.start` followed by the matches after it are the matches from `m.start`. */
  lemma MatchesCons(text: string, m: Match, rest: seq<Match>)
    requires IsMatch(text, m) && m.end <= |text|
    requires forall k :: 0 <= k < |rest| ==> IsMatch(text, rest[k])
    requires Fits(text, rest, m.end)
    requires forall p :: m.end <= p < |text| ==> (MatchAt(text, p) <==> p in Starts(rest))
    requires forall p :: p in Starts(rest) ==> m.end <= p < |text|
    ensures forall k :: 0 <= k < |[m] + rest| ==> IsMatch(text, ([m] + rest)[k])
    ensures Fits(text, [m] + rest, m.start)
    ensures forall p :: m.start <= p < |text| ==> (MatchAt(text, p) <==> p in Starts([m] + rest))
    ensures forall p :: p in Starts([m] + rest) ==> m.start <= p < |text|
  {
    var ms := [m] + rest;
    StartsCons(m, rest);
    FitsCons(text, m, rest, m.start);
    NoMatchInside(text, m.start);
    forall k | 0 <= k < |ms| ensures IsMatch(text, ms[k]) {
      if k > 0 { assert ms[k] == rest[k - 1]; }
    }
  }

  function Matches(text: string): (ms: seq<Match>)
    ensures forall k :: 0 <= k < |ms| ==> IsMatch(text, ms[k])
    ensures Fits(text, ms, 0)
    ensures forall p :: MatchAt(text, p) <==> p in Starts(ms)
  {
    MatchesFrom(text, 0)
  }

  predicate AllKnown(ms: seq<Match>, kw: map<string, string>) {
    forall k :: 0 <= k < |ms| ==> ms[k].keyword in kw
  }

  /** The text from `from` on with each match replaced by its expansion, left to right.
      The expansions are inserted as they are: they are never searched for markers. */
  function Render(text: string, ms: seq<Match>, kw: map<string, string>, from: nat): string
    requires from <= |text| && Fits(text, ms, from) && AllKnown(ms, kw)
    decreases |ms|
  {
    if ms == [] then text[from..]
    else text[from..ms[0].start] + kw[ms[0].keyword] + Render(text, ms[1..], kw, ms[0].end)
  }

  /** `expand_keywords(text, keywords)` without the interactive confirmation: `None` when
      some referenced keyword is unknown, otherwise the text with every reference replaced. */
  function Expansion(text: string, kw: map<string, string>): Option<string> {
    var ms := Matches(text);
    if AllKnown(ms, kw) then Some(Render(text, ms, kw, 0)) else None
  }

  /** The text references keyword `w` somewhere. */
  ghost predicate Mentions(text: string, w: string) {
    exists p :: MatchAt(text, p) && KeywordAt(text, p) == w
  }

  /** The text contains at least one reference. */
  ghost predicate HasReference(text: string) {
    exists p :: MatchAt(text, p)
  }

  lemma HasReferenceIff(text: string)
    ensures HasReference(text) <==> Matches(text) != []
  {
    var ms := Matches(text);
    if ms != [] { assert ms[0].start in Starts(ms); }
  }

  lemma MentionsIffMatched(text: string, w: string)
    ensures Mentions(text, w) <==> exists k :: 0 <= k < |Matches(text)| && Matches(text)[k].keyword == w
  {
    var ms := Matches(text);
    if Mentions(text, w) {
      var p :| MatchAt(text, p) && KeywordAt(text, p) == w;
      assert p in Starts(ms);
      var k :| 0 <= k < |ms| && ms[k].start == p;
      assert ms[k].keyword == w;
    }
    if exists k :: 0 <= k < |ms| && ms[k].keyword == w {
      var k :| 0 <= k < |ms| && ms[k].keyword == w;
      assert IsMatch(text, ms[k]);
      assert MatchAt(text, ms[k].start) && KeywordAt(text, ms[k].start) == w;
    }
  }

  /** Expansion fails exactly when the text references a keyword missing from the table. */
  lemma ExpansionFailsIffUnknown(text: string, kw: map<string, string>)
    ensures Expansion(text, kw).None? <==> exists w :: Mentions(text, w) && w !in kw
  {
    var ms := Matches(text);
    if !AllKnown(ms, kw) {
      var k :| 0 <= k < |ms| && ms[k].keyword !in kw;
      MentionsIffMatched(text, ms[k].keyword);
    }
    if exists w :: Mentions(text, w) && w !in kw {
      var w :| Mentions(text, w) && w !in kw;
      MentionsIffMatched(text, w);
    }
  }

  /** Text without the marker is returned unchanged. */
  lemma NoMarkerUnchanged(text: string, kw: map<string, string>)
    requires !Contains(text, Marker)
    ensures Expansion(text, kw) == Some(text)
  {
    var ms := Matches(text);
    if ms != [] {
      assert ms[0].start in Starts(ms);
      assert OccursAt(text, Marker, ms[0].start);
    }
  }

  /** Expansion is a single pass: an expansion that itself contains a reference is not
      expanded again. */
  lemma SinglePass()
    ensures Expansion("@text-a", map["a" := "@text-a"]) == Some("@text-a")
  {
    var text := "@text-a";
    assert text[0..6] == Marker;
    assert MatchAt(text, 0);
    assert WordRunEnd(text, 7) == 7;
    assert WordRunEnd(text, 6) == 7;
    assert KeywordAt(text, 0) == "a";
    assert forall p :: 0 < p < |text| ==> !MatchAt(text, p);
    var ms := Matches(text);
    assert Starts(ms) == {0};
    assert |ms| == 1;
    assert ms[0] == Match(0, 7, "a");
    assert ms == [Match(0, 7, "a")];
    var kw := map["a" := "@text-a"];
    assert AllKnown(ms, kw);
    assert Render(text, ms[1..], kw, 7) == [];
    assert Render(text, ms, kw, 0) == text[0..0] + "@text-a" + [];
    assert Render(text, ms, kw, 0) == "@text-a";
    assert Expansion(text, kw) == Some(Render(text, ms, kw, 0));
  }

  /** Where the expansions end up: splitting at the first match's start. */
  lemma RenderFrom(text: string, ms: seq<Match>, kw: map<string, string>, from: nat, lim: nat)
    requires from <= lim <= |text| && Fits(text, ms, lim) && AllKnown(ms, kw)
    requires lim == if ms == [] then |text| else ms[0].start
    ensures Fits(text, ms, from)
    ensures Render(text, ms, kw, from) == text[from..lim] + Render(text, ms, kw, lim)
  {
    if ms != [] {
      assert text[from..ms[0].start] == text[from..lim];
      assert text[lim..ms[0].start] == [];
    }
  }

  function Limit(text: string, ms: seq<Match>, j: nat): nat
    requires Fits(text, ms, 0) && j <= |ms|
  {
    if j == |ms| then |text| else ms[j].start
  }

  lemma FitsSuffix(text: string, ms: seq<Match>, j: nat)
    requires Fits(text, ms, 0) && j <= |ms|
    ensures Fits(text, ms[j..], Limit(text, ms, j))
  {
  }

  /** One step of the right-to-left splice: replacing match `j` in a text whose matches
      after `j` are already replaced. */
  lemma SpliceStep(text: string, ms: seq<Match>, kw: map<string, string>, j: nat, out: string)
    requires Fits(text, ms, 0) && AllKnown(ms, kw) && j < |ms|
    requires Fits(text, ms[j + 1..], Limit(text, ms, j + 1)) && AllKnown(ms[j + 1..], kw)
    requires out == text[..Limit(text, ms, j + 1)] + Render(text, ms[j + 1..], kw, Limit(text, ms, j + 1))
    ensures Fits(text, ms[j..], Limit(text, ms, j)) && AllKnown(ms[j..], kw)
    ensures out[..ms[j].start] + kw[ms[j].keyword] + out[ms[j].end..]
            == text[..Limit(text, ms, j)] + Render(text, ms[j..], kw, Limit(text, ms, j))
  {
    var lim := Limit(text, ms, j + 1);
    var start, end := ms[j].start, ms[j].end;
    FitsSuffix(text, ms, j);
    assert ms[j..][1..] == ms[j + 1..] && ms[j..][0] == ms[j];
    RenderFrom(text, ms[j + 1..], kw, end, lim);
    var tail := Render(text, ms[j + 1..], kw, lim);
    assert Render(text, ms[j..], kw, start) == text[start..start] + kw[ms[j].keyword] + Render(text, ms[j + 1..], kw, end);
    SpliceSlices(out, text, start, end, lim, kw[ms[j].keyword], tail);
  }

  /** Replacing `[start, end)` of `t[..lim] + tail` by `e`, as slices. */
  lemma SpliceSlices(out: string, t: string, start: nat, end: nat, lim: nat, e: string, tail: string)
    requires start <= end <= lim <= |t| && out == t[..lim] + tail
    ensures out[..start] + e + out[end..] == t[..start] + (t[start..start] + e + (t[end..lim] + tail))
  {
    assert out[..start] == t[..start];
    assert out[end..] == t[end..lim] + tail;
    assert t[start..start] == [];
  }

  /** The `expand_keywords` loops: collect a replacement per match or a missing keyword,
      report the missing ones sorted, otherwise splice the replacements in from the right. */
  method ExpandKeywords(text: string, kw: map<string, string>, interrupted: bool)
    returns (expanded: Option<string>, missing: seq<string>)
    ensures missing != [] <==> Expansion(text, kw).None?
    ensures StrictlySorted(missing)
    ensures forall w :: w in missing <==> Mentions(text, w) && w !in kw
    ensures expanded.Some? <==> Expansion(text, kw).Some? && !(interrupted && HasReference(text))
    ensures expanded.Some? ==> expanded == Expansion(text, kw)
  {
    var ms := Matches(text);
    var replacements, unknown := Collect(ms, kw);
    forall w ensures w in unknown <==> Mentions(text, w) && w !in kw {
      MentionsIffMatched(text, w);
    }
    if unknown != [] {
      SortDistinct(unknown);
      missing := Sort(unknown);
      forall w ensures w in missing <==> w in unknown {
        InMultiset(missing, unknown, w);
      }
      assert !AllKnown(ms, kw) by {
        var w := unknown[0];
        assert w in unknown;
      }
      return None, missing;
    }
    missing := [];
    assert ms[..|ms|] == ms;
    var out := SpliceRight(text, ms, kw, replacements);
    HasReferenceIff(text);
    if replacements != [] && interrupted {
      // Ctrl-C at the "Press Enter to send" prompt
      return None, missing;
    }
    expanded := Some(out);
  }

  /** The first loop of `expand_keywords`: a replacement for each match whose keyword is
      known, and each unknown keyword once, in order of first appearance. */
  method Collect(ms: seq<Match>, kw: map<string, string>) returns (replacements: seq<(nat, nat, string)>, unknown: seq<string>)
    ensures Distinct(unknown)
    ensures forall w :: w in unknown <==> w !in kw && exists k :: 0 <= k < |ms| && ms[k].keyword == w
    ensures unknown == [] ==> AllKnown(ms, kw) && |replacements| == |ms|
    ensures unknown == [] ==> forall k :: 0 <= k < |ms| ==> replacements[k] == (ms[k].start, ms[k].end, kw[ms[k].keyword])
  {
    replacements, unknown := [], [];
    for j := 0 to |ms|
      invariant Distinct(unknown)
      invariant forall w :: w in unknown <==> w !in kw && exists k :: 0 <= k < j && ms[k].keyword == w
      invariant unknown == [] ==> |replacements| == j && forall k :: 0 <= k < j ==> ms[k].keyword in kw
      invariant unknown == [] ==> forall k :: 0 <= k < j ==> replacements[k] == (ms[k].start, ms[k].end, kw[ms[k].keyword])
    {
      var m := ms[j];
      if m.keyword in kw {
        replacements := replacements + [(m.start, m.end, kw[m.keyword])];
      } else if m.keyword !in unknown {
        unknown := unknown + [m.keyword];
      }
    }
  }

  /** The replacement half of `expand_keywords`: the spans are replaced starting with the
      largest start position, so that earlier spans keep their indices. The starts
      increase, so that order is the list read backwards. */
  method SpliceRight(text: string, ms: seq<Match>, kw: map<string, string>, replacements: seq<(nat, nat, string)>)
    returns (out: string)
    requires Fits(text, ms, 0) && AllKnown(ms, kw) && |replacements| == |ms|
    requires forall k :: 0 <= k < |ms| ==> replacements[k] == (ms[k].start, ms[k].end, kw[ms[k].keyword])
    ensures out == Render(text, ms, kw, 0)
  {
    out := text;
    var j := |ms|;
    while j > 0
      invariant 0 <= j <= |ms|
      invariant Fits(text, ms[j..], Limit(text, ms, j)) && AllKnown(ms[j..], kw)
      invariant out == text[..Limit(text, ms, j)] + Render(text, ms[j..], kw, Limit(text, ms, j))
    {
      j := j - 1;
      var (start, end, value) := replacements[j];
      SpliceStep(text, ms, kw, j, out);
      out := out[..start] + value + out[end..];
    }
    RenderFrom(text, ms, kw, 0, Limit(text, ms, 0));
  }

  const KeywordsFile := ".extn_aider.keywords.json"

  /** What reading `.extn_aider/.extn_aider.keywords.json` under the project root produced:
      whatever JSON value the file holds, or a failure. The error texts of the JSON parser
      and of the operating system are parameters. */
  datatype KeywordsSource =
    | Absent
    | BadJson(reason: string)
    | Unreadable(reason: string)
    | Loaded(data: Json)

  /** `{}` as a parsed JSON value. */
  const EmptyObject := JObject([], map[])

  /** `load_keywords`: the value `json.load` returns, whatever its shape, and the error
      reported when there is none; a failure of any kind gives `{}`. */
  function LoadKeywords(src: KeywordsSource): (r: (Json, Option<string>))
    ensures src.Loaded? ==> r == (src.data, None)
    ensures !src.Loaded? ==> r.0 == EmptyObject && !Truthy(r.0)
    ensures !src.Loaded? ==> r.1.Some? && EndsWith(r.1.value, if src.Absent? then KeywordsFile else src.reason)
  {
    match src
    case Absent => (EmptyObject, Some("Keywords file not found: " + KeywordsFile))
    case BadJson(e) => (EmptyObject, Some("Invalid JSON in " + KeywordsFile + ": " + e))
    case Unreadable(e) => (EmptyObject, Some("Error reading " + KeywordsFile + ": " + e))
    case Loaded(data) => (data, None)
  }

  /** The keywords a loaded value can expand: the entries of an object whose values are
      strings. */
  function StringEntries(d: Json): (kw: map<string, string>)
    ensures forall w :: w in kw <==> d.JObject? && w in d.fields && d.fields[w].JString?
    ensures forall w :: w in kw ==> kw[w] == d.fields[w].s
  {
    if d.JObject? then map w | w in d.fields && d.fields[w].JString? :: d.fields[w].s else map[]
  }

  /** The first loop of `expand_keywords` raises a TypeError: `keyword in keywords` does on a
      value that is not a container, and `keywords[keyword]` does on a list or a string
      that contains the keyword. */
  predicate LookupRaises(ms: seq<Match>, d: Json) {
    exists k :: 0 <= k < |ms| && (PyIn(ms[k].keyword, d).None? || (PyIn(ms[k].keyword, d) == Some(true) && !d.JObject?))
  }

  /** Some referenced keyword is not `in` the loaded value: it is reported as unknown. */
  predicate SomeUnknown(ms: seq<Match>, d: Json) {
    exists k :: 0 <= k < |ms| && PyIn(ms[k].keyword, d) == Some(false)
  }

  /** Splicing raises a TypeError: the value of a referenced keyword is not a string. */
  predicate SpliceRaises(ms: seq<Match>, d: Json) {
    d.JObject? && exists k :: 0 <= k < |ms| && ms[k].keyword in d.fields && !d.fields[ms[k].keyword].JString?
  }

  /** No loop of `expand_keywords` raises and no keyword is unknown exactly when every
      referenced keyword names a string entry of a loaded object. */
  lemma ExpandableIff(ms: seq<Match>, d: Json)
    ensures !LookupRaises(ms, d) && !SomeUnknown(ms, d) && !SpliceRaises(ms, d) <==> AllKnown(ms, StringEntries(d))
  {
    var kw := StringEntries(d);
    if !LookupRaises(ms, d) && !SomeUnknown(ms, d) && !SpliceRaises(ms, d) {
      forall k | 0 <= k < |ms| ensures ms[k].keyword in kw {
        assert PyIn(ms[k].keyword, d) == Some(true);
      }
    }
    if AllKnown(ms, kw) {
      forall k | 0 <= k < |ms| ensures PyIn(ms[k].keyword, d) == Some(true) && d.JObject? {
        assert ms[k].keyword in kw;
      }
    }
  }

  /** What `expand_keywords` makes of a message before it asks for confirmation, when the
      loaded value is any JSON value. */
  datatype Expanded =
    | TypeError          // a lookup or a splice raises
    | Unknown            // some referenced keyword is not `in` the value
    | Spliced(text: string, prompted: bool)   // `prompted`: there were replacements to confirm

  /** The two loops of `expand_keywords` over a loaded value. What the outcome means is
      `ExpandValueMeaning`. */
  function ExpandValue(text: string, d: Json): Expanded {
    var ms := Matches(text);
    if LookupRaises(ms, d) then TypeError
    else if SomeUnknown(ms, d) then Unknown
    else if SpliceRaises(ms, d) then TypeError
    else if AllKnown(ms, StringEntries(d)) then Spliced(Render(text, ms, StringEntries(d), 0), ms != [])
    else Unknown
  }

  /** A TypeError in the first loop wins over unknown keywords, unknown keywords stop
      `expand_keywords` before the splicing, and a splice of a non-string raises.
      Otherwise the text is the expansion over the value's string entries, and the user is
      asked to confirm exactly when the text references a keyword. */
  lemma ExpandValueMeaning(text: string, d: Json)
    ensures var r := ExpandValue(text, d);
      && (r == TypeError <==> LookupRaises(Matches(text), d) || (!SomeUnknown(Matches(text), d) && SpliceRaises(Matches(text), d)))
      && (r == Unknown <==> !LookupRaises(Matches(text), d) && SomeUnknown(Matches(text), d))
      && (r.Spliced? <==> Expansion(text, StringEntries(d)).Some?)
      && (r.Spliced? ==> r.text == Expansion(text, StringEntries(d)).value)
      && (r.Spliced? ==> (r.prompted <==> HasReference(text)))
  {
    ExpandableIff(Matches(text), d);
    HasReferenceIff(text);
  }

  /** What `cmd_customchat` does with a message. */
  datatype Dispatch =
    | NoMessage          // blank arguments: "Please provide a message"
    | NoKeywords         // the loaded value is falsy: an empty table, or none could be loaded
    | NotExpanded        // an unknown reference (reported), a cancelled prompt, or an empty result
    | Raised             // a TypeError escapes `expand_keywords`
    | Ask(message: string)
    | Architect(message: string)
    | Code(message: string)
  {
    predicate Sends() {
      Ask? || Architect? || Code?
    }
  }

  /** `cmd_customchat(args)`: the argument and keyword checks, the expansion, then
      dispatch to `/ask`, `/architect` or `/code` by the edit format. `interrupted` says
      whether the user answers the confirmation prompt with Ctrl-C. What each outcome
      means is `CustomChatCommandMeaning`. */
  function CustomChatCommand(args: string, src: KeywordsSource, editFormat: string, interrupted: bool): (r: Dispatch)
    ensures r.Ask? <==> r.Sends() && editFormat == "ask"
    ensures r.Architect? <==> r.Sends() && editFormat == "architect"
    ensures r.Code? <==> r.Sends() && editFormat != "ask" && editFormat != "architect"
  {
    var keywords := LoadKeywords(src).0;
    if Strip(args) == [] then NoMessage
    else if !Truthy(keywords) then NoKeywords
    else match ExpandValue(args, keywords)
      case TypeError => Raised
      case Unknown => NotExpanded
      case Spliced(expanded, prompted) =>
        if expanded == [] || (interrupted && prompted) then NotExpanded
        else Route(expanded, editFormat)
  }

  /** A message is sent exactly when it is not blank, the loaded value is truthy, every
      reference names a string entry, the expansion is not empty and the confirmation is
      not cancelled; it is sent expanded. A TypeError escapes exactly as `ExpandValue`
      says, and nothing is looked up when the value is falsy. */
  lemma CustomChatCommandMeaning(args: string, src: KeywordsSource, editFormat: string, interrupted: bool)
    ensures var r := CustomChatCommand(args, src, editFormat, interrupted);
      && (r.Sends() <==> && Strip(args) != [] && src.Loaded? && Truthy(src.data)
                         && Expansion(args, StringEntries(src.data)).Some?
                         && Expansion(args, StringEntries(src.data)).value != []
                         && !(interrupted && HasReference(args)))
      && (r.Sends() ==> r.message == Expansion(args, StringEntries(src.data)).value)
      && (r.Raised? <==> && Strip(args) != [] && src.Loaded? && Truthy(src.data)
                         && (LookupRaises(Matches(args), src.data)
                             || (!SomeUnknown(Matches(args), src.data) && SpliceRaises(Matches(args), src.data))))
      && (r == NoKeywords <==> Strip(args) != [] && !(src.Loaded? && Truthy(src.data)))
  {
    var r := CustomChatCommand(args, src, editFormat, interrupted);
    if Strip(args) == [] {
      assert r == NoMessage;
    } else if !(src.Loaded? && Truthy(src.data)) {
      assert r == NoKeywords;
    } else {
      ExpandValueMeaning(args, src.data);
      match ExpandValue(args, src.data)
      case TypeError =>
        assert r == Raised;
      case Unknown =>
        assert r == NotExpanded;
      case Spliced(expanded, prompted) =>
        assert r == if expanded == [] || (interrupted && prompted) then NotExpanded else Route(expanded, editFormat);
    }
  }

  /** The edit-format switch at the end of `cmd_customchat`. */
  function Route(message: string, editFormat: string): (r: Dispatch)
    ensures r.Sends() && r.message == message
    ensures r.Ask? <==> editFormat == "ask"
    ensures r.Architect? <==> editFormat == "architect"
  {
    if editFormat == "ask" then Ask(message)
    else if editFormat == "architect" then Architect(message)
    else Code(message)
  }

  /** A message without references is sent as it is, whatever non-empty value the file
      holds: a list, a string or a number is never looked into. */
  lemma NoReferenceSentUnchanged(args: string, data: Json, editFormat: string, interrupted: bool)
    requires Strip(args) != [] && Truthy(data) && !Contains(args, Marker)
    ensures CustomChatCommand(args, Loaded(data), editFormat, interrupted).Sends()
    ensures CustomChatCommand(args, Loaded(data), editFormat, interrupted).message == args
  {
    NoMarkerUnchanged(args, StringEntries(data));
    CustomChatCommandMeaning(args, Loaded(data), editFormat, interrupted);
    var ms := Matches(args);
    if HasReference(args) {
      var p :| MatchAt(args, p);
      assert OccursAt(args, Marker, p);
    }
  }

  /** A keywords file holding a list raises a TypeError once the message references a
      keyword the list contains. */
  lemma ListTableRaises(args: string, items: seq<Json>, editFormat: string, interrupted: bool, k: nat)
    requires Strip(args) != [] && k < |Matches(args)| && JString(Matches(args)[k].keyword) in items
    ensures CustomChatCommand(args, Loaded(JList(items)), editFormat, interrupted) == Raised
  {
    assert PyIn(Matches(args)[k].keyword, JList(items)) == Some(true);
    CustomChatCommandMeaning(args, Loaded(JList(items)), editFormat, interrupted);
  }

  /** The completion for each iterated item, in iteration order. A non-string item has none:
      `"@text-" + item` raises on it. */
  function ItemCompletions(items: seq<Json>): seq<string> {
    seq(|items|, k requires 0 <= k < |items| => if items[k].JString? then Marker + items[k].s else [])
  }

  /** `completions_customchat()`: `"@text-" + keyword` for every keyword the loaded value
      yields, sorted; empty when the value is falsy; `None` is the TypeError raised when the
      value cannot be iterated or yields something other than a string. */
  method CustomChatCompletions(src: KeywordsSource) returns (r: Option<seq<string>>)
    ensures !(src.Loaded? && Truthy(src.data)) ==> r == Some([])
    ensures src.Loaded? && Truthy(src.data) ==>
              (r.None? <==> Iterate(src.data).None? || exists k :: 0 <= k < |Iterate(src.data).value| && !Iterate(src.data).value[k].JString?)
    ensures r.Some? ==> Sorted(r.value)
    ensures r.Some? && src.Loaded? && Truthy(src.data) ==> multiset(r.value) == multiset(ItemCompletions(Iterate(src.data).value))
    ensures r.Some? && src.Loaded? && Truthy(src.data) ==>
              && |r.value| == |Iterate(src.data).value|
              && forall s :: s in r.value <==> StartsWith(s, Marker) && JString(s[6..]) in Iterate(src.data).value
    ensures r.Some? && src.Loaded? && Truthy(src.data) && src.data.JObject? && Distinct(src.data.keys) ==>
              && StrictlySorted(r.value)
              && forall s :: s in r.value <==> StartsWith(s, Marker) && s[6..] in src.data.keys
  {
    var keywords := LoadKeywords(src).0;
    if !Truthy(keywords) {
      return Some([]);
    }
    var it := Iterate(keywords);
    if it.None? {
      return None;
    }
    var items := it.value;
    var completions: seq<string> := [];
    for i := 0 to |items|
      invariant |completions| == i
      invariant forall k :: 0 <= k < i ==> items[k].JString? && completions[k] == Marker + items[k].s
    {
      if !items[i].JString? {
        return None;
      }
      completions := completions + [Marker + items[i].s];
    }
    assert completions == ItemCompletions(items);
    r := Some(Sort(completions));
    assert |r.value| == |multiset(r.value)| == |multiset(completions)| == |completions|;
    forall s ensures s in r.value <==> StartsWith(s, Marker) && JString(s[6..]) in items {
      InMultiset(r.value, completions, s);
      if s in completions {
        var k :| 0 <= k < |completions| && completions[k] == s;
        assert s[6..] == items[k].s;
      }
      if StartsWith(s, Marker) && JString(s[6..]) in items {
        var k :| 0 <= k < |items| && items[k] == JString(s[6..]);
        assert completions[k] == s;
      }
    }
    if keywords.JObject? && Distinct(keywords.keys) {
      ObjectCompletions(keywords, items, completions);
      SortDistinct(completions);
    }
  }

  /** The completions of an object with distinct keys: one per key, all different. */
  lemma ObjectCompletions(d: Json, items: seq<Json>, completions: seq<string>)
    requires d.JObject? && Distinct(d.keys) && Iterate(d) == Some(items)
    requires |completions| == |items| && forall k :: 0 <= k < |items| ==> items[k].JString? && completions[k] == Marker + items[k].s
    ensures Distinct(completions)
    ensures forall s :: StartsWith(s, Marker) && JString(s[6..]) in items <==> StartsWith(s, Marker) && s[6..] in d.keys
  {
    forall a, b | 0 <= a < b < |completions| ensures completions[a] != completions[b] {
      assert completions[a][6..] == d.keys[a];
      assert completions[b][6..] == d.keys[b];
    }
    forall s ensures JString(s) in items <==> s in d.keys {
      if JString(s) in items {
        var k :| 0 <= k < |items| && items[k] == JString(s);
      }
      if s in d.keys {
        var k :| 0 <= k < |d.keys| && d.keys[k] == s;
        assert items[k] == JString(s);
      }
    }
  }
}
