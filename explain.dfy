/** The `/explain` command (custom_aider/commands/explain_command.py): finding a function
    or class in the chat's Python files, the analysis handed to the HTML template, the
    Mermaid control-flow lines, the signature line, and the command's completions. */
module Explain {
  import opened Util
  import opened Ordering
  import opened PyAst

  // ---------------------------------------------------------------- body analysis

  datatype BodyInfo = BodyInfo(hasLoops: bool, hasConditionals: bool, calls: seq<string>, lineCount: nat)

  /** The names called by bare-name calls among `ns`, in order, repeats kept. */
  function CallNames(ns: seq<Node>): seq<string> {
    if ns == [] then []
    else (if ns[0].kind.Call? && ns[0].kind.callee.Some? then [ns[0].kind.callee.value] else []) + CallNames(ns[1..])
  }

  /** A name is collected exactly when some node calls that bare name. */
  lemma {:induction false} CallNamesMeaning(ns: seq<Node>, c: string)
    decreases |ns|
    ensures c in CallNames(ns) <==> exists i :: 0 <= i < |ns| && ns[i].kind == Call(Some(c))
  {
    if ns != [] {
      CallNamesMeaning(ns[1..], c);
      if exists i :: 1 <= i < |ns| && ns[i].kind == Call(Some(c)) {
        var i :| 1 <= i < |ns| && ns[i].kind == Call(Some(c));
        assert ns[1..][i - 1] == ns[i];
      }
      if exists i :: 0 <= i < |ns[1..]| && ns[1..][i].kind == Call(Some(c)) {
        var i :| 0 <= i < |ns[1..]| && ns[1..][i].kind == Call(Some(c));
        assert ns[i + 1] == ns[1..][i];
      }
    }
  }

  /** What `_analyze_body` reports about a definition, as seen along `ast.walk(node)`. */
  function BodyInfoOf(n: Node): BodyInfo {
    var w := Walk(n);
    BodyInfo(exists i :: 0 <= i < |w| && w[i].kind.IsLoop(),
             exists i :: 0 <= i < |w| && w[i].kind.If?,
             CallNames(w),
             |n.body|)
  }

  /** The flags describe the whole subtree, the calls are those of the subtree, and the
      line count is the number of statements directly in the body. */
  lemma BodyInfoMeaning(n: Node, c: string)
    ensures BodyInfoOf(n).hasLoops <==> exists m :: Within(m, n) && m.kind.IsLoop()
    ensures BodyInfoOf(n).hasConditionals <==> exists m :: Within(m, n) && m.kind.If?
    ensures c in BodyInfoOf(n).calls <==> exists m :: Within(m, n) && m.kind == Call(Some(c))
    ensures BodyInfoOf(n).lineCount == |n.body|
  {
    var w := Walk(n);
    forall m ensures m in w <==> Within(m, n) {
      WalkComplete(n, m);
    }
    if exists m :: Within(m, n) && m.kind.IsLoop() {
      var m :| Within(m, n) && m.kind.IsLoop();
      assert m in w;
    }
    if exists m :: Within(m, n) && m.kind.If? {
      var m :| Within(m, n) && m.kind.If?;
      assert m in w;
    }
    if exists m :: Within(m, n) && m.kind == Call(Some(c)) {
      var m :| Within(m, n) && m.kind == Call(Some(c));
      assert m in w;
    }
    CallNamesMeaning(w, c);
    if c in BodyInfoOf(n).calls {
      var i :| 0 <= i < |w| && w[i].kind == Call(Some(c));
      assert w[i] in w;
    }
  }

  /** `_analyze_body(node)`: one pass over the walk, setting the flags and collecting calls. */
  method AnalyzeBody(n: Node) returns (info: BodyInfo)
    ensures info == BodyInfoOf(n)
  {
    var w := Walk(n);
    var hasLoops, hasConditionals, calls := false, false, [];
    for i := 0 to |w|
      invariant hasLoops <==> exists j :: 0 <= j < i && w[j].kind.IsLoop()
      invariant hasConditionals <==> exists j :: 0 <= j < i && w[j].kind.If?
      invariant calls == CallNames(w[..i])
    {
      var item := w[i];
      CallNamesSnoc(w[..i], item);
      assert w[..i + 1] == w[..i] + [item];
      if item.kind.IsLoop() {
        hasLoops := true;
      } else if item.kind.If? {
        hasConditionals := true;
      } else if item.kind.Call? && item.kind.callee.Some? {
        calls := calls + [item.kind.callee.value];
      }
    }
    assert w[..|w|] == w;
    info := BodyInfo(hasLoops, hasConditionals, calls, |n.body|);
  }

  lemma {:induction false} CallNamesSnoc(ns: seq<Node>, n: Node)
    decreases |ns|
    ensures CallNames(ns + [n]) == CallNames(ns) + (if n.kind.Call? && n.kind.callee.Some? then [n.kind.callee.value] else [])
  {
    if ns != [] {
      assert (ns + [n])[1..] == ns[1..] + [n];
      CallNamesSnoc(ns[1..], n);
    } else {
      assert [n][1..] == [];
    }
  }

  // ---------------------------------------------------------------- node analysis

  /** The dictionary `analyze_node` builds; keys a definition does not have are empty,
      as the template's `.get(key, [])` reads them. */
  datatype Analysis = Analysis(
    name: string, typeLabel: string, docstring: string, source: string, lineno: nat,
    args: seq<string>, defaults: seq<string>, methods: seq<Analysis>, bases: seq<string>,
    bodyInfo: BodyInfo)

  /** `_get_node_type`. */
  function NodeType(k: Kind): (r: string)
    ensures r == "unknown" <==> !k.Def?
    ensures k.Def? ==> (r == "class" <==> k.defKind == ClassDef)
    ensures r == "function" || r == "async function" <==> k.IsFunction()
    ensures r == "async function" <==> k.Def? && k.defKind == AsyncFunctionDef
  {
    if !k.Def? then "unknown"
    else match k.defKind
      case AsyncFunctionDef => "async function"
      case FunctionDef => "function"
      case ClassDef => "class"
  }

  /** The function definitions among a class body's statements, in order. */
  function FunctionDefs(s: seq<Node>): (r: seq<Node>)
    ensures forall i :: 0 <= i < |r| ==> r[i].kind.IsFunction() && r[i] in s
    ensures forall n :: n in s && n.kind.IsFunction() ==> n in r
  {
    if s == [] then []
    else (if s[0].kind.IsFunction() then [s[0]] else []) + FunctionDefs(s[1..])
  }

  /** `analyze_node(node)` for a function or class definition. */
  function AnalysisOf(n: Node): (a: Analysis)
    requires n.kind.Def?
    decreases n, 1
    ensures a.name == n.kind.name && a.lineno == n.kind.lineno && a.source == n.kind.source
    ensures a.typeLabel == NodeType(n.kind) && a.bodyInfo == BodyInfoOf(n)
    ensures a.docstring == if n.kind.docstring.Some? then n.kind.docstring.value else ""
    ensures n.kind.IsFunction() ==> a.args == n.kind.args && a.defaults == n.kind.defaults && a.methods == [] && a.bases == []
    ensures !n.kind.IsFunction() ==> a.args == [] && a.defaults == [] && a.bases == n.kind.bases
    ensures !n.kind.IsFunction() ==> a.methods == MethodsOf(n.body)
  {
    var k := n.kind;
    var function? := k.IsFunction();
    Analysis(k.name, NodeType(k), if k.docstring.Some? then k.docstring.value else "", k.source, k.lineno,
             if function? then k.args else [],
             if function? then k.defaults else [],
             if function? then [] else MethodsOf(n.body),
             if function? then [] else k.bases,
             BodyInfoOf(n))
  }

  /** The analyses of a class's methods, in body order. */
  function MethodsOf(s: seq<Node>): seq<Analysis>
    decreases s, 0
  {
    if s == [] then []
    else (if s[0].kind.IsFunction() then [AnalysisOf(s[0])] else []) + MethodsOf(s[1..])
  }

  /** A class's method list holds the analysis of each of its function definitions, in order. */
  lemma {:induction false} MethodsOfMeaning(s: seq<Node>)
    decreases |s|
    ensures |MethodsOf(s)| == |FunctionDefs(s)|
    ensures forall i :: 0 <= i < |MethodsOf(s)| ==> FunctionDefs(s)[i].kind.Def? && MethodsOf(s)[i] == AnalysisOf(FunctionDefs(s)[i])
  {
    if s != [] {
      MethodsOfMeaning(s[1..]);
      var tail, defs := MethodsOf(s[1..]), FunctionDefs(s[1..]);
      if s[0].kind.IsFunction() {
        assert MethodsOf(s) == [AnalysisOf(s[0])] + tail;
        assert FunctionDefs(s) == [s[0]] + defs;
        forall i | 0 < i < |MethodsOf(s)|
          ensures FunctionDefs(s)[i].kind.Def? && MethodsOf(s)[i] == AnalysisOf(FunctionDefs(s)[i])
        {
          assert MethodsOf(s)[i] == tail[i - 1] && FunctionDefs(s)[i] == defs[i - 1];
        }
      } else {
        assert MethodsOf(s) == tail && FunctionDefs(s) == defs;
      }
    }
  }

  /** `analyze_node(node)` / `_analyze_function` / `_analyze_class`, with the method loop. */
  method AnalyzeNode(n: Node) returns (a: Analysis)
    requires n.kind.Def?
    decreases n
    ensures a == AnalysisOf(n)
  {
    var k := n.kind;
    var info := AnalyzeBody(n);
    var docstring := if k.docstring.Some? then k.docstring.value else "";
    if k.IsFunction() {
      return Analysis(k.name, NodeType(k), docstring, k.source, k.lineno, k.args, k.defaults, [], [], info);
    }
    var methods := [];
    for i := 0 to |n.body|
      invariant methods == MethodsOf(n.body[..i])
    {
      var item := n.body[i];
      MethodsOfSnoc(n.body[..i], item);
      assert n.body[..i + 1] == n.body[..i] + [item];
      if item.kind.IsFunction() {
        var m := AnalyzeNode(item);
        methods := methods + [m];
      }
    }
    assert n.body[..|n.body|] == n.body;
    a := Analysis(k.name, NodeType(k), docstring, k.source, k.lineno, [], [], methods, k.bases, info);
  }

  lemma {:induction false} MethodsOfSnoc(s: seq<Node>, n: Node)
    decreases |s|
    ensures MethodsOf(s + [n]) == MethodsOf(s) + (if n.kind.IsFunction() then [AnalysisOf(n)] else [])
  {
    if s != [] {
      assert (s + [n])[1..] == s[1..] + [n];
      MethodsOfSnoc(s[1..], n);
    } else {
      assert [n][1..] == [];
    }
  }

  predicate IsDefNamed(m: Node, target: string) {
    m.kind.Def? && m.kind.name == target
  }

  /** `find_target`: the first definition with that name in `ast.walk` order. */
  method FindTarget(tree: Node, target: string) returns (r: Option<Analysis>)
    ensures r.None? <==> !exists m :: Within(m, tree) && IsDefNamed(m, target)
    ensures r.Some? ==> exists i :: 0 <= i < |Walk(tree)| && IsDefNamed(Walk(tree)[i], target)
                               && (forall j :: 0 <= j < i ==> !IsDefNamed(Walk(tree)[j], target))
                               && r.value == AnalysisOf(Walk(tree)[i])
  {
    var w := Walk(tree);
    for i := 0 to |w|
      invariant forall j :: 0 <= j < i ==> !IsDefNamed(w[j], target)
    {
      if IsDefNamed(w[i], target) {
        var a := AnalyzeNode(w[i]);
        WalkComplete(tree, w[i]);
        return Some(a);
      }
    }
    forall m | Within(m, tree) ensures !IsDefNamed(m, target) {
      WalkComplete(tree, m);
    }
    return None;
  }

  // ---------------------------------------------------------------- control flow

  function MethodEdge(name: string): string {
    "    C --> " + name + "[" + name + "()]"
  }

  function MethodEdges(ms: seq<Analysis>): (r: seq<string>)
    ensures |r| == |ms| && forall i :: 0 <= i < |ms| ==> r[i] == MethodEdge(ms[i].name)
  {
    seq(|ms|, i requires 0 <= i < |ms| => MethodEdge(ms[i].name))
  }

  /** The lines of the Mermaid diagram `generate_control_flow` draws. */
  function FlowLines(a: Analysis): (lines: seq<string>)
    ensures |lines| >= 1 && lines[0] == "graph TD"
    ensures |lines| == if a.typeLabel == "function" || a.typeLabel == "async function" then
                         (if a.bodyInfo.hasConditionals then 7 else 4)
                       else if a.typeLabel == "class" then 2 + |a.methods|
                       else 1
    ensures a.typeLabel == "class" ==>
              lines[1] == "    C[" + a.name + "]" && forall i :: 0 <= i < |a.methods| ==> lines[2 + i] == MethodEdge(a.methods[i].name)
  {
    if a.typeLabel == "function" || a.typeLabel == "async function" then
      ["graph TD", "    Start[Start] --> Args[Process Arguments]"] +
      (if a.bodyInfo.hasConditionals then
         ["    Args --> Conditions{Conditions}",
          "    Conditions -->|True| Process[Process]",
          "    Conditions -->|False| Alt[Alternative]",
          "    Process --> End[Return]",
          "    Alt --> End"]
       else
         ["    Args --> Process[Process]",
          "    Process --> End[Return]"])
    else if a.typeLabel == "class" then
      ["graph TD", "    C[" + a.name + "]"] + MethodEdges(a.methods)
    else ["graph TD"]
  }

  /** `generate_control_flow(analysis)`: the lines joined with newlines. */
  method GenerateControlFlow(a: Analysis) returns (diagram: string)
    ensures diagram == Join("\n", FlowLines(a))
  {
    var mermaid := ["graph TD"];
    if a.typeLabel == "function" || a.typeLabel == "async function" {
      mermaid := mermaid + ["    Start[Start] --> Args[Process Arguments]"];
      if a.bodyInfo.hasConditionals {
        mermaid := mermaid + ["    Args --> Conditions{Conditions}"];
        mermaid := mermaid + ["    Conditions -->|True| Process[Process]"];
        mermaid := mermaid + ["    Conditions -->|False| Alt[Alternative]"];
        mermaid := mermaid + ["    Process --> End[Return]"];
        mermaid := mermaid + ["    Alt --> End"];
      } else {
        mermaid := mermaid + ["    Args --> Process[Process]"];
        mermaid := mermaid + ["    Process --> End[Return]"];
      }
    } else if a.typeLabel == "class" {
      mermaid := mermaid + ["    C[" + a.name + "]"];
      ghost var edges := MethodEdges(a.methods);
      for i := 0 to |a.methods|
        invariant mermaid == ["graph TD", "    C[" + a.name + "]"] + edges[..i]
      {
        assert edges[..i + 1] == edges[..i] + [MethodEdge(a.methods[i].name)];
        mermaid := mermaid + [MethodEdge(a.methods[i].name)];
      }
      assert edges[..|a.methods|] == edges;
    }
    assert mermaid == FlowLines(a);
    diagram := Join("\n", mermaid);
  }

  /** The diagram's first line is always the graph header. */
  lemma DiagramHeader(a: Analysis)
    ensures StartsWith(Join("\n", FlowLines(a)), "graph TD")
  {
    var lines := FlowLines(a);
    if |lines| > 1 {
      assert Join("\n", lines) == "graph TD" + "\n" + Join("\n", lines[1..]);
    }
  }

  // ---------------------------------------------------------------- signature

  /** The signature loop of `generate_html`: one part per positional argument; the
      defaults are aligned with the last arguments. */
  method SignatureParts(args: seq<string>, defaults: seq<string>) returns (parts: seq<string>)
    ensures |parts| == |args|
    ensures forall i :: 0 <= i < |args| - |defaults| ==> parts[i] == args[i]
    ensures forall j :: 0 <= j < |defaults| && |defaults| - |args| <= j ==>
              parts[|args| - |defaults| + j] == args[|args| - |defaults| + j] + "=" + defaults[j]
  {
    parts := [];
    var offset := |args| - |defaults|;
    for i := 0 to |args|
      invariant |parts| == i
      invariant forall k :: 0 <= k < i && k < offset ==> parts[k] == args[k]
      invariant forall k :: 0 <= k < i && k >= offset ==> parts[k] == args[k] + "=" + defaults[k - offset]
    {
      if i >= offset && defaults != [] {
        parts := parts + [args[i] + "=" + defaults[i - offset]];
      } else {
        parts := parts + [args[i]];
      }
    }
  }

  /** `f"def {name}({', '.join(sig_parts)}):"`: between the brackets, the parts separated by
      `", "`, which split back into the parts when none of them holds `", "`. */
  function SignatureLine(name: string, parts: seq<string>): (r: string)
    ensures StartsWith(r, "def " + name + "(") && EndsWith(r, "):")
    ensures |r| == |name| + 7 + |Join(", ", parts)|
    ensures r[|name| + 5..|r| - 2] == Join(", ", parts)
  {
    var r := "def " + name + "(" + Join(", ", parts) + "):";
    assert r[..|"def " + name + "("|] == "def " + name + "(";
    r
  }

  /** The parameter list of a signature line splits on `", "` into the signature parts. */
  lemma SignatureLineParts(name: string, parts: seq<string>)
    requires parts != [] && forall k :: 0 <= k < |parts| ==> !Contains(parts[k], ", ")
    ensures var r := SignatureLine(name, parts); SplitOn(r[|name| + 5..|r| - 2], ", ") == parts
  {
    SplitOnJoinComma(parts);
  }

  // ---------------------------------------------------------------- arguments

  datatype ExplainRequest =
    | NoTarget          // "Please specify what to explain"
    | InvalidLevel      // "Invalid level. Use: basic, deep, or eli5"
    | Explain(target: string, level: string)

  /** The request the tokens of non-blank arguments make: the first token is the target;
      a second token starting with `--level=` gives the level, the piece between its first
      and second `=`, which must be basic, deep or eli5; any other tokens are ignored. */
  function RequestOf(parts: seq<string>): (r: ExplainRequest)
    requires parts != []
    ensures !r.NoTarget?
    ensures r.Explain? ==> r.target == parts[0] && r.level in ["basic", "deep", "eli5"]
    ensures !(|parts| > 1 && StartsWith(parts[1], "--level=")) ==> r == Explain(parts[0], "basic")
    ensures |parts| > 1 && StartsWith(parts[1], "--level=") ==>
              && |SplitOn(parts[1], "=")| >= 2
              && (r.InvalidLevel? <==> SplitOn(parts[1], "=")[1] !in ["basic", "deep", "eli5"])
              && (r.Explain? ==> r.level == SplitOn(parts[1], "=")[1])
  {
    if |parts| > 1 && StartsWith(parts[1], "--level=") then
      assert OccursAt(parts[1], "=", 7);
      var level := SplitOn(parts[1], "=")[1];
      if level == "basic" || level == "deep" || level == "eli5" then Explain(parts[0], level)
      else InvalidLevel
    else Explain(parts[0], "basic")
  }

  /** The argument parsing of `cmd_explain`: blank arguments name no target; otherwise
      the request is the one the tokens of the stripped arguments make. */
  function ParseExplainArgs(args: string): (r: ExplainRequest)
    ensures r.NoTarget? <==> Strip(args) == []
    ensures Strip(args) != [] ==> SplitWs(Strip(args)) != [] && r == RequestOf(SplitWs(Strip(args)))
  {
    var t := Strip(args);
    if t == [] then NoTarget
    else
      assert LeadingSpaces(t) == 0;
      RequestOf(SplitWs(t))
  }

  /** A token followed by an empty tail, or by a space and more, is the first token. */
  lemma TokenThenTail(option: string, tail: string)
    requires option != [] && NoSpace(option)
    requires tail == [] || tail[0] == ' '
    ensures SplitWs(option + tail) == [option] + SplitWs(tail)
  {
    if tail == [] {
      assert option + tail == option;
      SplitWsSingle(option);
    } else {
      SplitWsWord(option, tail);
    }
  }

  /** `target option tail`, where the tail is empty or is more tokens after a space, is
      already stripped. */
  lemma LeadingTokensStripped(target: string, option: string, tail: string)
    requires target != [] && NoSpace(target) && option != [] && NoSpace(option)
    requires tail == [] || !IsSpace(tail[|tail| - 1])
    ensures Strip(target + " " + option + tail) == target + " " + option + tail
  {
    var s := target + " " + option + tail;
    assert s[0] == target[0];
    assert s[|s| - 1] == if tail == [] then option[|option| - 1] else tail[|tail| - 1];
    StripStripped(s);
  }

  /** `target option tail`, where the tail is empty or is more tokens after a space, splits
      into the two tokens followed by the tail's tokens. */
  lemma LeadingTokens(target: string, option: string, tail: string)
    requires target != [] && NoSpace(target) && option != [] && NoSpace(option)
    requires tail == [] || (tail[0] == ' ' && !IsSpace(tail[|tail| - 1]))
    ensures Strip(target + " " + option + tail) == target + " " + option + tail
    ensures SplitWs(Strip(target + " " + option + tail)) == [target, option] + SplitWs(tail)
  {
    LeadingTokensStripped(target, option, tail);
    Regroup(target, " ", option, tail);
    SplitWsWord(target, " " + (option + tail));
    SplitWsSpace(option + tail);
    TokenThenTail(option, tail);
    ConsTwo(target, option, SplitWs(tail));
  }

  /** The level of `--level=<word><extra>` is `<word>` when `<extra>` is empty or starts a
      further `=` piece. */
  lemma LevelPiece(word: string, extra: string)
    requires forall i :: 0 <= i < |word| ==> word[i] != '='
    requires extra == [] || extra[0] == '='
    ensures |SplitOn("--level=" + word + extra, "=")| >= 2
    ensures SplitOn("--level=" + word + extra, "=")[1] == word
  {
    var t1 := "--level=" + word + extra;
    FindChar(t1, '=', 7);
    var rest := word + extra;
    assert t1[8..] == rest;
    FindChar(rest, '=', |word|);
    SplitOnFirst(rest, "=");
    assert SplitOn(t1, "=") == [t1[..7]] + SplitOn(rest, "=");
    assert rest[..|word|] == word;
  }

  /** A second token without the `--level=` prefix: the target, at the default level,
      whatever tokens follow. */
  lemma ParseExplainPlainOption(target: string, option: string, tail: string)
    requires target != [] && NoSpace(target) && option != [] && NoSpace(option)
    requires tail == [] || (tail[0] == ' ' && !IsSpace(tail[|tail| - 1]))
    requires !StartsWith(option, "--level=")
    ensures ParseExplainArgs(target + " " + option + tail) == Explain(target, "basic")
  {
    LeadingTokens(target, option, tail);
  }

  /** A second token `--level=...`: the level is its first `=` piece, whatever tokens follow. */
  lemma ParseExplainLevelOption(target: string, option: string, tail: string)
    requires target != [] && NoSpace(target) && option != [] && NoSpace(option)
    requires tail == [] || (tail[0] == ' ' && !IsSpace(tail[|tail| - 1]))
    requires StartsWith(option, "--level=")
    ensures |SplitOn(option, "=")| >= 2
    ensures var level := SplitOn(option, "=")[1];
            ParseExplainArgs(target + " " + option + tail)
            == if level == "basic" || level == "deep" || level == "eli5" then Explain(target, level) else InvalidLevel
  {
    var parts := [target, option] + SplitWs(tail);
    assert ParseExplainArgs(target + " " + option + tail) == RequestOf(parts) by {
      LeadingTokens(target, option, tail);
    }
    assert parts[0] == target && parts[1] == option;
  }

  /** `target --level=<word>` names the target and the level `<word>`, which must be one of
      the three; text from a further `=` on and any further tokens are dropped. */
  lemma ParseExplainLevelToken(target: string, word: string, extra: string, tail: string)
    requires target != [] && NoSpace(target) && NoSpace(word) && NoSpace(extra)
    requires forall i :: 0 <= i < |word| ==> word[i] != '='
    requires extra == [] || extra[0] == '='
    requires tail == [] || (tail[0] == ' ' && !IsSpace(tail[|tail| - 1]))
    ensures ParseExplainArgs(target + " --level=" + word + extra + tail)
            == if word == "basic" || word == "deep" || word == "eli5" then Explain(target, word) else InvalidLevel
  {
    var option := "--level=" + word + extra;
    NoSpaceConcat("--level=", word);
    NoSpaceConcat("--level=" + word, extra);
    assert target + " --level=" + word + extra + tail == target + " " + option + tail;
    assert StartsWith(option, "--level=") by {
      assert option[..8] == "--level=";
    }
    LevelPiece(word, extra);
    ParseExplainLevelOption(target, option, tail);
  }

  /** A second token without the `--level=` prefix leaves the default level. */
  lemma ParseExplainDefaultLevel()
    ensures ParseExplainArgs("run --deep") == Explain("run", "basic")
  {
    assert "run --deep" == "run" + " " + "--deep" + "";
    assert !StartsWith("--deep", "--level=") by {
      assert "--deep"[2] != "--level="[2];
    }
    ParseExplainPlainOption("run", "--deep", "");
  }

  // ---------------------------------------------------------------- search

  /** One file in the chat: its name relative to the project root, its text (`None` when it
      cannot be read) and its tree (`None` when it does not parse). */
  datatype SourceFile = SourceFile(name: string, content: Option<string>, tree: Option<Node>)

  /** The file is a readable, parsable `.py` file that defines `target`. */
  ghost predicate HasTarget(f: SourceFile, target: string) {
    EndsWith(f.name, ".py") && f.content.Some? && f.tree.Some?
    && exists m :: Within(m, f.tree.value) && IsDefNamed(m, target)
  }

  /** The search loop of `cmd_explain`. `saveOk(i)` says whether rendering the template and
      writing the HTML file succeed for the `i`-th file; when they fail the error is reported
      and the search goes on with the next file. `saved` is the file whose explanation was
      written: the first that defines the target and whose explanation could be saved. */
  method SearchTarget(files: seq<SourceFile>, target: string, saveOk: nat -> bool)
    returns (found: bool, saved: Option<nat>)
    ensures found <==> exists i :: 0 <= i < |files| && HasTarget(files[i], target)
    ensures saved.Some? <==> exists i :: 0 <= i < |files| && HasTarget(files[i], target) && saveOk(i)
    ensures saved.Some? ==> saved.value < |files| && HasTarget(files[saved.value], target) && saveOk(saved.value)
                            && forall j :: 0 <= j < saved.value ==> !(HasTarget(files[j], target) && saveOk(j))
  {
    found, saved := false, None;
    var i := 0;
    while i < |files|
      invariant 0 <= i <= |files|
      invariant found <==> exists j :: 0 <= j < i && HasTarget(files[j], target)
      invariant saved.None? && forall j :: 0 <= j < i ==> !(HasTarget(files[j], target) && saveOk(j))
    {
      var f := files[i];
      if EndsWith(f.name, ".py") && f.content.Some? && f.tree.Some? {
        var analysis := FindTarget(f.tree.value, target);
        if analysis.Some? {
          found := true;
          if saveOk(i) {
            saved := Some(i);
            return;
          }
        }
      }
      i := i + 1;
    }
  }

  // ---------------------------------------------------------------- completions

  /** The names `(?:def|class)\s+([a-zA-Z_]\w*)` finds, used when a file does not parse. */
  function KeywordLength(s: string, i: nat): nat {
    if OccursAt(s, "def", i) then 3 else if OccursAt(s, "class", i) then 5 else 0
  }

  predicate IsIdentStart(c: char) {
    IsAsciiLetter(c) || c == '_'
  }

  /** The pattern matches at `i`. */
  predicate RegexDefAt(s: string, i: nat) {
    var k := KeywordLength(s, i);
    k > 0 && i + k <= |s| &&
    var j := SpaceRunEnd(s, i + k);
    j > i + k && j < |s| && IsIdentStart(s[j])
  }

  /** The captured name of a match at `i`, and where the match ends. */
  function RegexNameAt(s: string, i: nat): (r: (string, nat))
    requires RegexDefAt(s, i)
    ensures i < r.1 <= |s| && r.0 != [] && IsIdentStart(r.0[0])
    ensures forall k :: 0 <= k < |r.0| ==> IsWordChar(r.0[k])
  {
    var j := SpaceRunEnd(s, i + KeywordLength(s, i));
    var e := WordRunEnd(s, j + 1);
    (s[j..e], e)
  }

  /** One match of the pattern: where it starts, where it ends and the name it captures. */
  datatype DefMatch = DefMatch(start: nat, end: nat, name: string)

  /** A pattern, given by the match it has at each position of a text of length `lim`, if
      any; every match is non-empty and lies inside the text. */
  ghost predicate Advances(at: nat -> Option<DefMatch>, lim: nat) {
    forall p: nat :: at(p).Some? ==> at(p).value.start == p < at(p).value.end <= lim
  }

  /** `ms` are the matches `re.finditer` reports from `i`: the first is the pattern's match
      at the first position from `i` on where the pattern matches, the rest are the matches
      from its end, and when there is none no position from `i` on matches. */
  ghost predicate FindIterFrom(at: nat -> Option<DefMatch>, lim: nat, i: nat, ms: seq<DefMatch>)
    decreases |ms|
  {
    if ms == [] then forall p: nat :: i <= p < lim ==> at(p).None?
    else
      && i <= ms[0].start && at(ms[0].start) == Some(ms[0])
      && (forall p: nat :: i <= p < ms[0].start ==> at(p).None?)
      && FindIterFrom(at, lim, ms[0].end, ms[1..])
  }

  /** `re.finditer(pattern, text)` from `i`: the leftmost matches that do not overlap. */
  function FindIter(at: nat -> Option<DefMatch>, lim: nat, i: nat): (ms: seq<DefMatch>)
    requires Advances(at, lim)
    decreases lim - i
    ensures FindIterFrom(at, lim, i, ms)
  {
    if i >= lim then []
    else match at(i)
      case Some(m) =>
        var rest := FindIter(at, lim, m.end);
        assert ([m] + rest)[1..] == rest;
        [m] + rest
      case None =>
        var rest := FindIter(at, lim, i + 1);
        rest
  }

  /** The matches `re.finditer` reports are determined by the text: they are the ones the
      search finds. */
  lemma {:induction false} FindIterUnique(at: nat -> Option<DefMatch>, lim: nat, i: nat, ms: seq<DefMatch>)
    requires Advances(at, lim) && FindIterFrom(at, lim, i, ms)
    decreases lim - i
    ensures ms == FindIter(at, lim, i)
  {
    var rs := FindIter(at, lim, i);
    if ms != [] && rs != [] {
      assert ms[0].start == rs[0].start;
      assert ms[0] == rs[0];
      assert ms[0].end > i;
      FindIterUnique(at, lim, ms[0].end, ms[1..]);
      FindIterUnique(at, lim, rs[0].end, rs[1..]);
      assert ms == [ms[0]] + ms[1..] && rs == [rs[0]] + rs[1..];
    }
  }

  /** The pattern `(?:def|class)\s+([a-zA-Z_]\w*)` as a match at each position of `s`. */
  function RegexMatcher(s: string): nat -> Option<DefMatch> {
    (p: nat) => if RegexDefAt(s, p) then Some(DefMatch(p, RegexNameAt(s, p).1, RegexNameAt(s, p).0)) else None
  }

  lemma RegexAdvances(s: string)
    ensures Advances(RegexMatcher(s), |s|)
  {
  }

  /** `re.finditer(r'(?:def|class)\s+([a-zA-Z_]\w*)', s)` from `i`. */
  function RegexDefMatches(s: string, i: nat): (ms: seq<DefMatch>)
    ensures FindIterFrom(RegexMatcher(s), |s|, i, ms)
  {
    RegexAdvances(s);
    FindIter(RegexMatcher(s), |s|, i)
  }

  /** The names the matches capture, in order. */
  function RegexDefNames(s: string, i: nat): (r: seq<string>)
    ensures |r| == |RegexDefMatches(s, i)|
    ensures forall k :: 0 <= k < |r| ==> r[k] == RegexDefMatches(s, i)[k].name
  {
    var ms := RegexDefMatches(s, i);
    seq(|ms|, k requires 0 <= k < |ms| => ms[k].name)
  }

  /** A match inside another match's name is not reported: `def xdef y` names only `xdef`. */
  lemma RegexNoOverlap()
    ensures RegexDefNames("def xdef y", 0) == ["xdef"]
  {
    var s := "def xdef y";
    assert OccursAt(s, "def", 0);
    assert KeywordLength(s, 0) == 3;
    assert SpaceRunEnd(s, 4) == 4;
    assert SpaceRunEnd(s, 3) == 4;
    assert RegexDefAt(s, 0);
    assert WordRunEnd(s, 8) == 8;
    assert WordRunEnd(s, 5) == 8;
    assert s[4..8] == "xdef";
    assert RegexNameAt(s, 0) == ("xdef", 8);
    assert !RegexDefAt(s, 8) && !RegexDefAt(s, 9);
    assert RegexDefNames(s, 10) == [];
  }

  predicate IsPublic(name: string) {
    !StartsWith(name, "_")
  }

  /** A name and its three `--level=` variants. */
  function Variants(name: string): seq<string> {
    [name, name + " --level=basic", name + " --level=deep", name + " --level=eli5"]
  }

  /** `f` is a readable `.py` file that defines `name`: by the tree when it parses, by the
      regular expression otherwise. */
  ghost predicate DefinesName(f: SourceFile, name: string) {
    EndsWith(f.name, ".py") && f.content.Some? &&
    if f.tree.Some? then exists m :: Within(m, f.tree.value) && m.kind.Def? && m.kind.name == name
    else name in RegexDefNames(f.content.value, 0)
  }

  /** The definition names along `ast.walk(tree)`. */
  method TreeDefNames(tree: Node) returns (names: seq<string>)
    ensures forall n :: n in names <==> exists m :: Within(m, tree) && m.kind.Def? && m.kind.name == n
  {
    var w := Walk(tree);
    names := [];
    for i := 0 to |w|
      invariant forall n :: n in names <==> exists j :: 0 <= j < i && w[j].kind.Def? && w[j].kind.name == n
    {
      if w[i].kind.Def? {
        names := names + [w[i].kind.name];
      }
    }
    forall n ensures n in names <==> exists m :: Within(m, tree) && m.kind.Def? && m.kind.name == n {
      if n in names {
        var j :| 0 <= j < |w| && w[j].kind.Def? && w[j].kind.name == n;
        WalkComplete(tree, w[j]);
      }
      if exists m :: Within(m, tree) && m.kind.Def? && m.kind.name == n {
        var m :| Within(m, tree) && m.kind.Def? && m.kind.name == n;
        WalkComplete(tree, m);
        var j :| 0 <= j < |w| && w[j] == m;
      }
    }
  }

  /** Each public name in `names` followed by its level variants. */
  method PublicVariants(names: seq<string>) returns (c: seq<string>)
    ensures forall x :: x in c <==> exists name :: name in names && IsPublic(name) && x in Variants(name)
  {
    c := [];
    for i := 0 to |names|
      invariant forall x :: x in c <==> exists j :: 0 <= j < i && IsPublic(names[j]) && x in Variants(names[j])
    {
      if IsPublic(names[i]) {
        c := c + Variants(names[i]);
      }
    }
    forall x ensures x in c <==> exists name :: name in names && IsPublic(name) && x in Variants(name) {
      if exists name :: name in names && IsPublic(name) && x in Variants(name) {
        var name :| name in names && IsPublic(name) && x in Variants(name);
        var j :| 0 <= j < |names| && names[j] == name;
      }
    }
  }

  /** The body of the `try` in `completions_explain` for one file. */
  method FileCompletions(f: SourceFile) returns (c: seq<string>)
    ensures forall x :: x in c <==> exists name :: DefinesName(f, name) && IsPublic(name) && x in Variants(name)
  {
    if !EndsWith(f.name, ".py") || f.content.None? {
      return [];
    }
    var names: seq<string>;
    if f.tree.Some? {
      names := TreeDefNames(f.tree.value);
    } else {
      names := RegexDefNames(f.content.value, 0);
    }
    assert forall name :: DefinesName(f, name) <==> name in names;
    c := PublicVariants(names);
  }

  /** `completions_explain()`: every public name defined in a chat file with its level
      variants, without repeats, sorted. */
  method ExplainCompletions(files: seq<SourceFile>) returns (r: seq<string>)
    ensures StrictlySorted(r)
    ensures forall x :: x in r <==> exists i, name :: 0 <= i < |files| && DefinesName(files[i], name) && IsPublic(name) && x in Variants(name)
  {
    var completions := [];
    for i := 0 to |files|
      invariant forall x :: x in completions <==> exists j, name :: 0 <= j < i && DefinesName(files[j], name) && IsPublic(name) && x in Variants(name)
    {
      var c := FileCompletions(files[i]);
      ghost var before := completions;
      completions := completions + c;
      forall x ensures x in completions <==>
                       exists j, name :: 0 <= j < i + 1 && DefinesName(files[j], name) && IsPublic(name) && x in Variants(name)
      {
        if x in c {
          var name :| DefinesName(files[i], name) && IsPublic(name) && x in Variants(name);
        }
        if exists j, name :: 0 <= j < i + 1 && DefinesName(files[j], name) && IsPublic(name) && x in Variants(name) {
          var j, name :| 0 <= j < i + 1 && DefinesName(files[j], name) && IsPublic(name) && x in Variants(name);
          if j < i {
            assert x in before;
          }
        }
      }
    }
    r := SortedSet(completions);
  }
}
