/** The editing logic of the syntax-highlighting text widget
    (custom_aider/gui/editors/tkinter_editor/syntax_text.py), apart from tkinter and
    Pygments: the token-to-tag mapping, the spans the highlighter tags, the `@` word before
    the cursor, the keyword suggestions and what choosing one inserts, the selection moves
    and the flag that keeps one highlight pending. A lexer's token stream is an input; the
    widget's text is the cursor's line and the cursor's column in it. */
module SyntaxWidget {
  import opened Util
  import opened OrderedDict

  // ---------------------------------------------------------------- tags

  const Tags := ["keyword", "string", "comment", "function", "tag"]

  /** `_map_token_to_tag(token_type)` on the token type's name, lower-cased: the first of
      keyword, string, comment, function and `name.tag` that it contains. */
  function MapTokenToTag(tokenType: string): (r: Option<string>)
    ensures r.Some? ==> r.value in Tags
    ensures var t := Lower(tokenType);
            && (r == Some("keyword") <==> Contains(t, "keyword"))
            && (r == Some("string") <==> !Contains(t, "keyword") && Contains(t, "string"))
            && (r == Some("comment") <==> !Contains(t, "keyword") && !Contains(t, "string") && Contains(t, "comment"))
            && (r == Some("function") <==> !Contains(t, "keyword") && !Contains(t, "string") && !Contains(t, "comment")
                                           && Contains(t, "function"))
            && (r == Some("tag") <==> !Contains(t, "keyword") && !Contains(t, "string") && !Contains(t, "comment")
                                      && !Contains(t, "function") && Contains(t, "name.tag"))
  {
    var t := Lower(tokenType);
    NameFunctionSubsumed(t);
    if Contains(t, "keyword") then Some("keyword")
    else if Contains(t, "string") then Some("string")
    else if Contains(t, "comment") then Some("comment")
    else if Contains(t, "function") || Contains(t, "name.function") then Some("function")
    else if Contains(t, "name.tag") then Some("tag")
    else None
  }

  /** The `'name.function'` test adds nothing: a type containing it contains `function`. */
  lemma NameFunctionSubsumed(t: string)
    ensures Contains(t, "name.function") ==> Contains(t, "function")
  {
    if Contains(t, "name.function") {
      var i :| 0 <= i <= |t| && OccursAt(t, "name.function", i);
      assert t[i + 5..i + 13] == t[i..i + 13][5..13];
      assert OccursAt(t, "function", i + 5);
    }
  }

  // ---------------------------------------------------------------- highlight spans

  datatype Token = Token(tokenType: string, value: string)
  /** A tagged range of character offsets from the start of the text, end exclusive. */
  datatype Span = Span(start: nat, end: nat, tag: string)

  /** The characters the tokens cover. */
  function TotalLength(tokens: seq<Token>): nat
    decreases |tokens|
  {
    if tokens == [] then 0 else TotalLength(tokens[..|tokens| - 1]) + |tokens[|tokens| - 1].value|
  }

  predicate Tagged(t: Token) {
    MapTokenToTag(t.tokenType).Some?
  }

  /** The span of the `k`th token: it starts where the earlier tokens end. */
  function SpanAt(tokens: seq<Token>, k: nat): Span
    requires k < |tokens| && Tagged(tokens[k])
  {
    Span(TotalLength(tokens[..k]), TotalLength(tokens[..k]) + |tokens[k].value|, MapTokenToTag(tokens[k].tokenType).value)
  }

  /** The `token_positions` the highlighting loop collects. */
  function SpansOf(tokens: seq<Token>): (r: seq<Span>)
    decreases |tokens|
    ensures forall i :: 0 <= i < |r| ==> r[i].start <= r[i].end <= TotalLength(tokens) && r[i].tag in Tags
    ensures forall i, j :: 0 <= i < j < |r| ==> r[i].end <= r[j].start
  {
    if tokens == [] then []
    else
      var init := tokens[..|tokens| - 1];
      var last := tokens[|tokens| - 1];
      SpansOf(init) + (if Tagged(last) then [SpanAt(tokens, |tokens| - 1)] else [])
  }

  /** Every tagged token has its span, and every span is a tagged token's. */
  lemma {:induction false} SpansOfTokens(tokens: seq<Token>)
    decreases |tokens|
    ensures forall k :: 0 <= k < |tokens| && Tagged(tokens[k]) ==> SpanAt(tokens, k) in SpansOf(tokens)
    ensures forall s :: s in SpansOf(tokens) ==> exists k :: 0 <= k < |tokens| && Tagged(tokens[k]) && s == SpanAt(tokens, k)
  {
    if tokens != [] {
      var init := tokens[..|tokens| - 1];
      SpansOfTokens(init);
      forall k | 0 <= k < |init| && Tagged(init[k]) ensures SpanAt(init, k) == SpanAt(tokens, k) {
        assert init[..k] == tokens[..k];
      }
      forall s | s in SpansOf(tokens)
        ensures exists k :: 0 <= k < |tokens| && Tagged(tokens[k]) && s == SpanAt(tokens, k)
      {
        if s in SpansOf(init) {
          var k :| 0 <= k < |init| && Tagged(init[k]) && s == SpanAt(init, k);
          assert tokens[k] == init[k];
        } else {
          assert s == SpanAt(tokens, |tokens| - 1);
        }
      }
    }
  }

  /** The number of spans is the number of tagged tokens: untagged ones only move the offset. */
  function CountTagged(tokens: seq<Token>): nat
    decreases |tokens|
  {
    if tokens == [] then 0 else CountTagged(tokens[..|tokens| - 1]) + (if Tagged(tokens[|tokens| - 1]) then 1 else 0)
  }

  lemma {:induction false} SpansCount(tokens: seq<Token>)
    decreases |tokens|
    ensures |SpansOf(tokens)| == CountTagged(tokens)
  {
    if tokens != [] {
      SpansCount(tokens[..|tokens| - 1]);
    }
  }

  /** The loop of `highlight_text` over the lexer's tokens, with its running offset. */
  method HighlightSpans(tokens: seq<Token>) returns (spans: seq<Span>, pos: nat)
    ensures spans == SpansOf(tokens) && pos == TotalLength(tokens)
  {
    spans, pos := [], 0;
    for i := 0 to |tokens|
      invariant spans == SpansOf(tokens[..i]) && pos == TotalLength(tokens[..i])
    {
      var prefix := tokens[..i + 1];
      assert prefix[..i] == tokens[..i];
      var start := pos;
      var end := pos + |tokens[i].value|;
      var tag := MapTokenToTag(tokens[i].tokenType);
      if tag.Some? {
        assert SpanAt(prefix, i) == Span(start, end, tag.value);
        spans := spans + [Span(start, end, tag.value)];
      }
      pos := end;
    }
    assert tokens[..|tokens|] == tokens;
  }

  // ---------------------------------------------------------------- the word before the cursor

  predicate IsWordOrHyphen(c: char) {
    IsWordChar(c) || c == '-'
  }

  /** Length of the run of word characters and hyphens that ends the text. */
  function TrailingWordLength(s: string): (n: nat)
    decreases |s|
    ensures n <= |s|
    ensures forall k :: |s| - n <= k < |s| ==> IsWordOrHyphen(s[k])
    ensures n < |s| ==> !IsWordOrHyphen(s[|s| - n - 1])
  {
    if s == [] || !IsWordOrHyphen(s[|s| - 1]) then 0 else TrailingWordLength(s[..|s| - 1]) + 1
  }

  /** `re.search(r'@[\w-]*$', line)`: an `@` and the word characters and hyphens after it that
      end the line, when there is one. */
  function WordBeforeCursor(line: string): (r: Option<string>)
    ensures r.Some? ==> r.value != [] && EndsWith(line, r.value) && r.value[0] == '@'
                        && forall k :: 1 <= k < |r.value| ==> IsWordOrHyphen(r.value[k])
    ensures r.None? <==> forall i :: 0 <= i < |line| && line[i] == '@' ==> exists k :: i < k < |line| && !IsWordOrHyphen(line[k])
  {
    var n := TrailingWordLength(line);
    if n < |line| && line[|line| - n - 1] == '@' then
      var w := line[|line| - n - 1..];
      assert forall k :: 1 <= k < |w| ==> w[k] == line[|line| - n - 1 + k];
      Some(w)
    else
      assert forall i :: 0 <= i < |line| && line[i] == '@' ==> exists k :: i < k < |line| && !IsWordOrHyphen(line[k]) by {
        forall i | 0 <= i < |line| && line[i] == '@' ensures exists k :: i < k < |line| && !IsWordOrHyphen(line[k]) {
          assert !IsWordOrHyphen(line[i]);
          assert i <= |line| - n - 1;
          if i < |line| - n - 1 {
            assert !IsWordOrHyphen(line[|line| - n - 1]);
          }
        }
      }
      None
  }

  // ---------------------------------------------------------------- suggestions

  datatype Suggestion = Suggestion(key: string, value: string)

  /** The listbox row for a suggestion: `"@key - value"`. */
  function Label(s: Suggestion): string {
    "@" + s.key + " - " + s.value
  }

  /** The keywords whose name starts with `prefix`, in the table's order. */
  function MatchesOf(keys: seq<string>, values: map<string, string>, prefix: string): seq<Suggestion>
    requires forall k :: k in keys ==> k in values
    decreases |keys|
  {
    if keys == [] then []
    else
      var k := keys[|keys| - 1];
      var init := keys[..|keys| - 1];
      assert forall x :: x in init ==> x in keys;
      MatchesOf(init, values, prefix) + (if StartsWith(k, prefix) then [Suggestion(k, values[k])] else [])
  }

  /** The matches are exactly the keys with the prefix, each with its value, and no more
      rows than keys. */
  lemma {:induction false} MatchesOfMeaning(keys: seq<string>, values: map<string, string>, prefix: string)
    requires forall k :: k in keys ==> k in values
    decreases |keys|
    ensures |MatchesOf(keys, values, prefix)| <= |keys|
    ensures var r := MatchesOf(keys, values, prefix);
            forall i :: 0 <= i < |r| ==> StartsWith(r[i].key, prefix) && r[i].key in keys && r[i].value == values[r[i].key]
    ensures var r := MatchesOf(keys, values, prefix);
            forall k :: k in keys && StartsWith(k, prefix) ==> exists i :: 0 <= i < |r| && r[i].key == k
  {
    if keys != [] {
      var k := keys[|keys| - 1];
      var init := keys[..|keys| - 1];
      assert forall x :: x in init ==> x in keys;
      MatchesOfMeaning(init, values, prefix);
      var head := MatchesOf(init, values, prefix);
      var r := MatchesOf(keys, values, prefix);
      assert r == head + (if StartsWith(k, prefix) then [Suggestion(k, values[k])] else []);
      forall x | x in keys && StartsWith(x, prefix) ensures exists i :: 0 <= i < |r| && r[i].key == x {
        var j :| 0 <= j < |keys| && keys[j] == x;
        if j < |keys| - 1 {
          assert init[j] == x;
          var i :| 0 <= i < |head| && head[i].key == x;
          assert r[i].key == x;
        } else {
          assert r[|r| - 1].key == x;
        }
      }
    }
  }

  // ---------------------------------------------------------------- insertion

  /** The text inserted for a row, as written: `row.split(' - ')[1].strip()`. */
  function InsertionTextAsWritten(row: string): string
    requires Contains(row, " - ")
  {
    Strip(SplitOn(row, " - ")[1])
  }

  /** The text inserted for a suggestion, as intended: its whole value, stripped. */
  function InsertedText(s: Suggestion): string {
    Strip(s.value)
  }

  /** A label splits first after its key when the key has no space. */
  lemma LabelSplit(s: Suggestion)
    requires ' ' !in s.key
    ensures Contains(Label(s), " - ")
    ensures SplitOn(Label(s), " - ") == ["@" + s.key] + SplitOn(s.value, " - ")
  {
    var l := Label(s);
    var i := |s.key| + 1;
    assert l[i..i + 3] == " - ";
    assert OccursAt(l, " - ", i);
    forall j | 0 <= j < i ensures !OccursAt(l, " - ", j) {
      if j > 0 { assert l[j] == s.key[j - 1]; }
      assert l[j..j + 3][0] == l[j];
    }
    assert Find(l, " - ", 0) == Some(i);
    assert l[..i] == "@" + s.key && l[i + 3..] == s.value;
  }

  /** Where the value holds no " - ", the source inserts the whole value, as intended. */
  lemma InsertionAgrees(s: Suggestion)
    requires ' ' !in s.key && !Contains(s.value, " - ")
    ensures Contains(Label(s), " - ") && InsertionTextAsWritten(Label(s)) == InsertedText(s)
  {
    LabelSplit(s);
    ContainsIffFind(s.value, " - ");
    SplitOnFirst(s.value, " - ");
  }

  /** A value holding " - " is cut at it: for a value `a - b` the source inserts `a`. */
  lemma InsertionTruncates(key: string, a: string, b: string)
    requires ' ' !in key && a != [] && NoSpace(a) && b != [] && NoSpace(b)
    ensures Contains(Label(Suggestion(key, a + " - " + b)), " - ")
    ensures InsertionTextAsWritten(Label(Suggestion(key, a + " - " + b))) == a
    ensures InsertedText(Suggestion(key, a + " - " + b)) == a + " - " + b
  {
    var v := a + " - " + b;
    LabelSplit(Suggestion(key, v));
    assert OccursAt(v, " - ", |a|) by { assert v[|a|..|a| + 3] == " - "; }
    forall j | 0 <= j < |a| ensures !OccursAt(v, " - ", j) {
      assert v[j..j + 3][0] == v[j] == a[j];
    }
    assert Find(v, " - ", 0) == Some(|a|);
    SplitOnFirst(v, " - ");
    assert v[..|a|] == a;
    StripStripped(a);
    assert v[0] == a[0] && v[|v| - 1] == b[|b| - 1];
    StripStripped(v);
  }

  /** The deletion and insertion as written: the cursor index is read before the `n`
      characters of the `@` word are deleted and used after, so the text goes `n` characters
      further along the line (a column past the line's end is its end). With right
      gravity the cursor follows text inserted at its own place. */
  function ReplaceAtStaleIndex(line: string, cursor: nat, n: nat, text: string): (r: (string, nat))
    requires n <= cursor <= |line|
  {
    var rest := line[..cursor - n] + line[cursor..];
    var col := if cursor <= |rest| then cursor else |rest|;
    (rest[..col] + text + rest[col..], if col == cursor - n then col + |text| else cursor - n)
  }

  /** The replacement as intended: the `n` characters before the cursor become `text`, the
      rest of the line is kept, and the cursor ends after the inserted text. */
  function ReplaceBeforeCursor(line: string, cursor: nat, n: nat, text: string): (r: (string, nat))
    requires n <= cursor <= |line|
    ensures r.1 <= |r.0| && r.0[..r.1] == line[..cursor - n] + text && r.0[r.1..] == line[cursor..]
  {
    (line[..cursor - n] + text + line[cursor..], cursor - n + |text|)
  }

  /** At the end of the line, the source's replacement is the intended one. */
  lemma StaleIndexAgreesAtLineEnd(line: string, n: nat, text: string)
    requires n <= |line|
    ensures ReplaceAtStaleIndex(line, |line|, n, text) == ReplaceBeforeCursor(line, |line|, n, text)
  {
    var rest := line[..|line| - n] + line[|line|..];
    assert rest == line[..|line| - n];
  }

  /** In the middle of a line it is not: in `@ab xyz` with the cursor after `@ab`, choosing
      `V` gives ` xyVz` instead of `V xyz`. */
  lemma StaleIndexMidLine()
    ensures ReplaceAtStaleIndex("@ab xyz", 3, 3, "V").0 == " xyVz"
    ensures ReplaceBeforeCursor("@ab xyz", 3, 3, "V").0 == "V xyz"
  {
    var line := "@ab xyz";
    assert line[..0] + line[3..] == " xyz";
    assert " xyz"[..3] + "V" + " xyz"[3..] == " xyVz";
  }

  // ---------------------------------------------------------------- the widget

  const Lexers := ["plain", "python", "javascript", "html", "xml", "markdown"]

  class SyntaxText {
    /** The lexer in use, by its name in the `set_lexer` table. */
    var lexerName: string
    var keywords: Dict<string>
    /** The line the cursor is on and the cursor's column. */
    var line: string
    var cursor: nat
    /** The suggestion window is shown; its rows and the selected row. */
    var windowVisible: bool
    var suggestions: seq<Suggestion>
    var selection: Option<nat>
    /** `_highlight_pending`; its absence before the first key release reads as false. */
    var highlightPending: bool
    /** Scheduled `_on_text_change` calls not yet run: from key releases, from pastes. */
    var keyTimers: nat
    var pasteTimers: nat
    var highlights: nat

    ghost predicate Valid()
      reads this
    {
      && keywords.Valid() && lexerName in Lexers && cursor <= |line|
      && (selection.Some? ==> selection.value < |suggestions|)
    }

    /** Key releases and the timers they start keep at most one highlight pending. */
    ghost predicate Debounced()
      reads this
    {
      keyTimers <= 1 && (highlightPending <==> keyTimers == 1)
    }

    constructor(keywords: Dict<string>, line: string, cursor: nat)
      requires keywords.Valid() && cursor <= |line|
      ensures Valid() && Debounced()
      ensures lexerName == "plain" && this.keywords == keywords && this.line == line && this.cursor == cursor
      ensures !windowVisible && suggestions == [] && selection.None?
      ensures !highlightPending && keyTimers == 0 && pasteTimers == 0 && highlights == 0
    {
      lexerName := "plain";
      this.keywords := keywords;
      this.line := line;
      this.cursor := cursor;
      windowVisible := false;
      suggestions := [];
      selection := None;
      highlightPending := false;
      keyTimers, pasteTimers, highlights := 0, 0, 0;
    }

    /** `set_lexer(name)`: a name outside the table falls back to the plain lexer. */
    method SetLexer(name: string)
      modifies this
      requires Valid()
      ensures Valid()
      ensures lexerName == (if name in Lexers then name else "plain")
      ensures name in Lexers ==> highlights == old(highlights) + 1
      ensures name !in Lexers ==> highlights == old(highlights)
      ensures keywords == old(keywords) && line == old(line) && cursor == old(cursor)
      ensures windowVisible == old(windowVisible) && suggestions == old(suggestions) && selection == old(selection)
      ensures highlightPending == old(highlightPending) && keyTimers == old(keyTimers) && pasteTimers == old(pasteTimers)
    {
      if name in Lexers {
        lexerName := name;
        highlights := highlights + 1;
      } else {
        lexerName := "plain";
      }
    }

    method HideSuggestions()
      modifies this
      requires Valid()
      ensures Valid() && !windowVisible
      ensures lexerName == old(lexerName) && keywords == old(keywords) && line == old(line) && cursor == old(cursor)
      ensures suggestions == old(suggestions) && selection == old(selection)
      ensures highlightPending == old(highlightPending) && keyTimers == old(keyTimers)
      ensures pasteTimers == old(pasteTimers) && highlights == old(highlights)
    {
      windowVisible := false;
    }

    /** `_show_suggestions(word)`: for an `@` word, the keywords whose name starts with the
        rest of the word become the rows, in table order, and the first is selected; with
        no `@` word or no match the window is hidden. */
    method ShowSuggestions(word: Option<string>)
      modifies this
      requires Valid()
      ensures Valid()
      ensures var matches := if word.Some? && StartsWith(word.value, "@")
                             then MatchesOf(keywords.keys, keywords.values, word.value[1..]) else [];
              && (matches == [] ==> !windowVisible && suggestions == old(suggestions) && selection == old(selection))
              && (matches != [] ==> windowVisible && suggestions == matches && selection == Some(0))
      ensures lexerName == old(lexerName) && keywords == old(keywords) && line == old(line) && cursor == old(cursor)
      ensures highlightPending == old(highlightPending) && keyTimers == old(keyTimers)
      ensures pasteTimers == old(pasteTimers) && highlights == old(highlights)
    {
      if word.None? || !StartsWith(word.value, "@") {
        HideSuggestions();
        return;
      }
      var prefix := word.value[1..];
      var keys := keywords.keys;
      var matches: seq<Suggestion> := [];
      for i := 0 to |keys|
        invariant matches == MatchesOf(keys[..i], keywords.values, prefix)
      {
        assert keys[..i + 1][..i] == keys[..i];
        if StartsWith(keys[i], prefix) {
          matches := matches + [Suggestion(keys[i], keywords.values[keys[i]])];
        }
      }
      assert keys[..|keys|] == keys;
      if matches == [] {
        HideSuggestions();
        return;
      }
      windowVisible := true;
      suggestions := matches;
      selection := Some(0);
    }

    /** `_navigate_suggestions` for Up (`up`) or Down: one row up or down, never past the
        first or the last; nothing when the window is hidden or no row is selected. */
    method Navigate(up: bool)
      modifies this
      requires Valid()
      ensures Valid()
      ensures !old(windowVisible) || old(selection).None? ==> selection == old(selection)
      ensures old(windowVisible) && old(selection).Some? ==>
                var s := old(selection).value;
                selection == Some(if up && s > 0 then s - 1 else if !up && s < |suggestions| - 1 then s + 1 else s)
      ensures lexerName == old(lexerName) && keywords == old(keywords) && line == old(line) && cursor == old(cursor)
      ensures windowVisible == old(windowVisible) && suggestions == old(suggestions)
      ensures highlightPending == old(highlightPending) && keyTimers == old(keyTimers)
      ensures pasteTimers == old(pasteTimers) && highlights == old(highlights)
    {
      if !windowVisible || selection.None? {
        return;
      }
      var s := selection.value;
      if up && s > 0 {
        selection := Some(s - 1);
      } else if !up && s < |suggestions| - 1 {
        selection := Some(s + 1);
      }
    }

    /** `_insert_suggestion`: the `@` word before the cursor is replaced by the selected
        keyword's value, stripped, and the window is hidden; without a shown window or a
        selected row nothing changes. */
    method InsertSuggestion()
      modifies this
      requires Valid()
      ensures Valid()
      ensures !old(windowVisible) || old(selection).None? ==> line == old(line) && cursor == old(cursor) && windowVisible == old(windowVisible)
      ensures old(windowVisible) && old(selection).Some? ==>
                && !windowVisible
                && var text := InsertedText(old(suggestions)[old(selection).value]);
                   match WordBeforeCursor(old(line)[..old(cursor)])
                   case None => line == old(line) && cursor == old(cursor)
                   case Some(w) => (line, cursor) == ReplaceBeforeCursor(old(line), old(cursor), |w|, text)
      ensures lexerName == old(lexerName) && keywords == old(keywords)
      ensures suggestions == old(suggestions) && selection == old(selection)
      ensures highlightPending == old(highlightPending) && keyTimers == old(keyTimers)
      ensures pasteTimers == old(pasteTimers) && highlights == old(highlights)
    {
      if !windowVisible || selection.None? {
        return;
      }
      var text := InsertedText(suggestions[selection.value]);
      var word := WordBeforeCursor(line[..cursor]);
      if word.Some? {
        var r := ReplaceBeforeCursor(line, cursor, |word.value|, text);
        line, cursor := r.0, r.1;
      }
      HideSuggestions();
    }

    /** `_on_text_change`: clears the pending flag and highlights the text. */
    method OnTextChange()
      modifies this
      requires Valid()
      ensures Valid()
      ensures !highlightPending && highlights == old(highlights) + 1
      ensures lexerName == old(lexerName) && keywords == old(keywords) && line == old(line) && cursor == old(cursor)
      ensures windowVisible == old(windowVisible) && suggestions == old(suggestions) && selection == old(selection)
      ensures keyTimers == old(keyTimers) && pasteTimers == old(pasteTimers)
    {
      highlightPending := false;
      highlights := highlights + 1;
    }

    /** `_on_key_release`: a printable key shows the suggestions for the `@` word before
        the cursor, if any, as `_show_suggestions` does; a highlight is scheduled only when
        none is pending. */
    method OnKeyRelease(printable: bool)
      modifies this
      requires Valid()
      ensures Valid()
      ensures highlightPending
      ensures keyTimers == old(keyTimers) + (if old(highlightPending) then 0 else 1)
      ensures old(Debounced()) ==> Debounced()
      ensures !printable || WordBeforeCursor(line[..cursor]).None? ==>
                windowVisible == old(windowVisible) && suggestions == old(suggestions) && selection == old(selection)
      ensures printable && WordBeforeCursor(line[..cursor]).Some? ==>
                var matches := MatchesOf(keywords.keys, keywords.values, WordBeforeCursor(line[..cursor]).value[1..]);
                && (matches == [] ==> !windowVisible && suggestions == old(suggestions) && selection == old(selection))
                && (matches != [] ==> windowVisible && suggestions == matches && selection == Some(0))
      ensures lexerName == old(lexerName) && keywords == old(keywords) && line == old(line) && cursor == old(cursor)
      ensures pasteTimers == old(pasteTimers) && highlights == old(highlights)
    {
      if printable {
        var word := WordBeforeCursor(line[..cursor]);
        if word.Some? {
          ShowSuggestions(word);
        }
      }
      if !highlightPending {
        highlightPending := true;
        keyTimers := keyTimers + 1;
      }
    }

    /** The timer a key release started fires. */
    method KeyTimerFires()
      modifies this
      requires Valid() && keyTimers > 0
      ensures Valid()
      ensures keyTimers == old(keyTimers) - 1 && !highlightPending && highlights == old(highlights) + 1
      ensures old(Debounced()) ==> Debounced()
      ensures lexerName == old(lexerName) && keywords == old(keywords) && line == old(line) && cursor == old(cursor)
      ensures windowVisible == old(windowVisible) && suggestions == old(suggestions) && selection == old(selection)
      ensures pasteTimers == old(pasteTimers)
    {
      keyTimers := keyTimers - 1;
      OnTextChange();
    }

    /** `_on_paste`: a highlight one millisecond later, whatever is pending. */
    method OnPaste()
      modifies this
      requires Valid()
      ensures Valid()
      ensures pasteTimers == old(pasteTimers) + 1
      ensures lexerName == old(lexerName) && keywords == old(keywords) && line == old(line) && cursor == old(cursor)
      ensures windowVisible == old(windowVisible) && suggestions == old(suggestions) && selection == old(selection)
      ensures highlightPending == old(highlightPending) && keyTimers == old(keyTimers) && highlights == old(highlights)
    {
      pasteTimers := pasteTimers + 1;
    }

    method PasteTimerFires()
      modifies this
      requires Valid() && pasteTimers > 0
      ensures Valid()
      ensures pasteTimers == old(pasteTimers) - 1 && !highlightPending && highlights == old(highlights) + 1
      ensures lexerName == old(lexerName) && keywords == old(keywords) && line == old(line) && cursor == old(cursor)
      ensures windowVisible == old(windowVisible) && suggestions == old(suggestions) && selection == old(selection)
      ensures keyTimers == old(keyTimers)
    {
      pasteTimers := pasteTimers - 1;
      OnTextChange();
    }

    /** `_on_key_press`: a whitespace key hides the suggestions. */
    method OnKeyPress(isSpace: bool)
      modifies this
      requires Valid()
      ensures Valid()
      ensures windowVisible == (old(windowVisible) && !isSpace)
      ensures lexerName == old(lexerName) && keywords == old(keywords) && line == old(line) && cursor == old(cursor)
      ensures suggestions == old(suggestions) && selection == old(selection)
      ensures highlightPending == old(highlightPending) && keyTimers == old(keyTimers)
      ensures pasteTimers == old(pasteTimers) && highlights == old(highlights)
    {
      if isSpace {
        HideSuggestions();
      }
    }
  }

  /** A cut (`<<Cut>>` calls `_on_text_change` directly) clears the flag while a key
      release's timer is still scheduled, so the next key release schedules a second one. */
  method CutAllowsSecondPending() returns (w: SyntaxText)
    ensures w.keyTimers == 2 && !w.Debounced()
  {
    w := new SyntaxText(Empty(), "", 0);
    w.OnKeyRelease(false);
    w.OnTextChange();
    w.OnKeyRelease(false);
  }

  /** With key releases and their timers only, one highlight is pending at a time: two
      releases in a row schedule one highlight, and each timer runs one. */
  method TypingScenario() returns (w: SyntaxText)
    ensures w.Debounced() && w.keyTimers == 0 && w.highlights == 2
  {
    w := new SyntaxText(Empty(), "", 0);
    w.OnKeyRelease(true);
    w.OnKeyRelease(true);
    w.KeyTimerFires();
    w.OnKeyRelease(false);
    w.KeyTimerFires();
  }
}
