/** The `/glog` command (custom_aider/commands/git_commands.py): the option parser and the
    `git log` argument vector it builds. Running git is not modelled. */
module GitLog {
  import opened Util

  const DefaultCount := "10"
  const GraphFlag := "--graph"
  const DateFlag := "--date=format:%Y-%m-%d %H:%M"
  const PrettyFlag := "--pretty=format:%C(yellow)%h%C(reset) - %C(green)%ad%C(reset) %C(bold blue)%an%C(reset)%C(red)%d%C(reset)%n%s%n"

  /** The tokens the parser looks at: none for empty arguments, otherwise `args.split()`. */
  function Tokens(args: string): seq<string> {
    if args == [] then [] else SplitWs(args)
  }

  /** The token after the last `-n` that has a token after it, read from the end; the
      default when there is no such pair. */
  function LastCount(parts: seq<string>): string
    decreases |parts|
  {
    if |parts| < 2 then DefaultCount
    else if parts[|parts| - 2] == "-n" then parts[|parts| - 1]
    else LastCount(parts[..|parts| - 1])
  }

  /** `parts[i]` is the last `-n` that has a token after it. */
  predicate LastPairAt(parts: seq<string>, i: int) {
    0 <= i < |parts| - 1 && parts[i] == "-n" && forall j :: i < j < |parts| - 1 ==> parts[j] != "-n"
  }

  /** The count is the token after the last `-n` pair; without one it is "10". A trailing
      `-n` is ignored, and the count is taken verbatim. */
  lemma {:induction false} LastCountMeaning(parts: seq<string>)
    decreases |parts|
    ensures (forall j :: 0 <= j < |parts| - 1 ==> parts[j] != "-n") ==> LastCount(parts) == DefaultCount
    ensures forall i :: LastPairAt(parts, i) ==> LastCount(parts) == parts[i + 1]
  {
    if |parts| >= 2 && parts[|parts| - 2] != "-n" {
      var p := parts[..|parts| - 1];
      LastCountMeaning(p);
      assert forall j :: 0 <= j < |p| ==> p[j] == parts[j];
      forall k | LastPairAt(parts, k) ensures LastCount(parts) == parts[k + 1] {
        assert LastPairAt(p, k);
      }
    } else if |parts| >= 2 {
      var last := |parts| - 2;
      forall k | LastPairAt(parts, k) ensures k == last {
        assert parts[last] == "-n";
      }
    }
  }

  /** The parsing loop of `cmd_glog`. */
  method ParseGlogArgs(args: string) returns (count: string, all: bool, stat: bool)
    ensures count == LastCount(Tokens(args))
    ensures all <==> "--all" in Tokens(args)
    ensures stat <==> "--stat" in Tokens(args)
  {
    count, all, stat := DefaultCount, false, false;
    if args != [] {
      var parts := SplitWs(args);
      for i := 0 to |parts|
        invariant count == LastCount(parts[..if i + 1 < |parts| then i + 1 else |parts|])
        invariant all <==> "--all" in parts[..i]
        invariant stat <==> "--stat" in parts[..i]
      {
        assert parts[..i + 1] == parts[..i] + [parts[i]];
        if i + 1 < |parts| {
          assert parts[..i + 2][..i + 1] == parts[..i + 1];
        }
        if parts[i] == "-n" && i + 1 < |parts| {
          count := parts[i + 1];
        } else if parts[i] == "--all" {
          all := true;
        } else if parts[i] == "--stat" {
          stat := true;
        }
      }
      assert parts[..|parts|] == parts;
    }
  }

  /** `cmd_glog(args)`: nothing without a repository; otherwise the `git log` vector with
      `-n<count>` third, then `--all` and `--stat` each at most once, in that order. */
  method Glog(hasRepo: bool, args: string) returns (cmd: Option<seq<string>>)
    ensures cmd.None? <==> !hasRepo
    ensures cmd.Some? ==>
              var c := cmd.value;
              && |c| >= 6 && c[0] == "git" && c[1] == "log" && c[2] == "-n" + LastCount(Tokens(args))
              && c[3] == GraphFlag && c[4] == DateFlag && c[5] == PrettyFlag
              && c[6..] == (if "--all" in Tokens(args) then ["--all"] else []) + (if "--stat" in Tokens(args) then ["--stat"] else [])
  {
    if !hasRepo {
      return None;
    }
    var count, all, stat := ParseGlogArgs(args);
    var c := ["git", "log", "-n" + count, GraphFlag, DateFlag, PrettyFlag];
    if all {
      c := c + ["--all"];
    }
    if stat {
      c := c + ["--stat"];
    }
    return Some(c);
  }

  /** The token after `-n` is read both as the count and as an option of its own. */
  lemma CountAlsoOption()
    ensures LastCount(["-n", "--all"]) == "--all"
    ensures "--all" in ["-n", "--all"]
  {
  }

  predicate IsGlogOption(t: string) {
    t == "-n" || t == "--all" || t == "--stat"
  }

  /** `completions_glog()`: the three options the parser recognises, each once. */
  function GlogCompletions(): (r: seq<string>)
    ensures |r| == 3 && forall t :: t in r <==> IsGlogOption(t)
  {
    ["--all", "--stat", "-n"]
  }
}
