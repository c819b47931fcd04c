/** The output renderer of the echo utility (src/main.rs:19-21, 89-138): the
    version text, the help text, or the operands, then the trailing newline. */
module Render {
  import opened Options
  import opened Escapes

  /** The build-time strings the renderer interpolates: the package version,
      and the help text, which this model does not spell out. */
  datatype BuildInfo = BuildInfo(version: string, helpText: string)

  function VersionInfo(b: BuildInfo): string {
    "Version " + b.version
  }

  function HelpInfo(b: BuildInfo): string {
    b.helpText
  }

  /** The operands one after another, with no separator. */
  function Concat(xs: seq<string>): string {
    if xs == [] then [] else xs[0] + Concat(xs[1..])
  }

  /** Each operand as it enters the output: decoded when escapes are on. */
  function Prepared(operands: seq<string>, interpret: bool): (r: seq<string>)
    ensures |r| == |operands|
    ensures forall j :: 0 <= j < |r| ==> r[j] == if interpret then Decode(operands[j]) else operands[j]
  {
    if operands == [] then []
    else [if interpret then Decode(operands[0]) else operands[0]] + Prepared(operands[1..], interpret)
  }

  /** The returned text before the trailing newline. */
  function Body(o: EchoOptions, operands: seq<string>, b: BuildInfo): string {
    if o.showVersionInfo then VersionInfo(b)
    else if o.showHelpInfo then HelpInfo(b)
    else Concat(Prepared(operands, o.interpretEscapedCharacters))
  }

  function Newline(o: EchoOptions): string {
    if o.addNewlineAtEnd then "\n" else ""
  }

  /** The string the renderer returns for the given switches and operands. */
  function Rendered(o: EchoOptions, operands: seq<string>, b: BuildInfo): string {
    Body(o, operands, b) + Newline(o)
  }

  /** The string returned for a command line. */
  function EchoOutput(args: seq<string>, b: BuildInfo): string {
    var (o, operands) := Classify(args);
    Rendered(o, operands, b)
  }

  lemma {:induction false} ConcatAppend(xs: seq<string>, x: string)
    ensures Concat(xs + [x]) == Concat(xs) + x
    decreases |xs|
  {
    if xs == [] {
      assert [] + [x] == [x];
      assert Concat([x]) == x + Concat([]);
    } else {
      assert (xs + [x])[0] == xs[0] && (xs + [x])[1..] == xs[1..] + [x];
      ConcatAppend(xs[1..], x);
    }
  }

  lemma PreparedAppend(operands: seq<string>, x: string, interpret: bool)
    ensures Prepared(operands + [x], interpret)
      == Prepared(operands, interpret) + [if interpret then Decode(x) else x]
  {
    var l := Prepared(operands + [x], interpret);
    var r := Prepared(operands, interpret) + [if interpret then Decode(x) else x];
    assert |l| == |r|;
    forall j | 0 <= j < |l|
      ensures l[j] == r[j]
    {
      assert (operands + [x])[j] == if j < |operands| then operands[j] else x;
    }
  }

  /** The body grows by one prepared operand per step of the operand loop. */
  lemma OperandStep(v: seq<string>, k: nat, interpret: bool)
    requires k < |v|
    ensures Concat(Prepared(v[..k + 1], interpret))
      == Concat(Prepared(v[..k], interpret)) + (if interpret then Decode(v[k]) else v[k])
  {
    assert v[..k + 1] == v[..k] + [v[k]];
    PreparedAppend(v[..k], v[k], interpret);
    ConcatAppend(Prepared(v[..k], interpret), if interpret then Decode(v[k]) else v[k]);
  }

  /** The escape transducer: appends the decoded form of `arg` to the
      buffer `s`, one character per step, looking one character ahead after a
      backslash. */
  method PushDecoded(s: string, arg: string) returns (t: string)
    ensures t == s + Decode(arg)
  {
    t := s;
    var j := 0;
    while j < |arg|
      invariant 0 <= j <= |arg|
      invariant t + Decode(arg[j..]) == s + Decode(arg)
    {
      DecodeFrom(arg, j);
      var c := arg[j];
      j := j + 1;
      var a: char;
      if c == '\\' {
        if j < |arg| {
          var e := arg[j];
          j := j + 1;
          a := EscapeChar(e);
        } else {
          a := '0';
        }
      } else {
        a := c;
      }
      t := t + [a];
    }
    assert arg[j..] == [];
  }

  /** The renderer: the version text, the help text or the operands, then the
      newline. In escape mode, after each operand the countdown `vLen` drops
      by one, and while it is not yet zero the source prints a space straight
      to standard output, not into the returned buffer; the `continue` of
      the plain mode skips both. */
  method Echo(args: seq<string>, b: BuildInfo) returns (s: string)
    ensures s == EchoOutput(args, b)
  {
    s := "";
    var opts, v := ProcessArgs(args);
    assert EchoOutput(args, b) == Body(opts, v, b) + Newline(opts);
    if opts.showVersionInfo {
      s := s + VersionInfo(b);
    } else if opts.showHelpInfo {
      s := s + HelpInfo(b);
    } else {
      var interpret := opts.interpretEscapedCharacters;
      var vLen: nat := |v|;
      var k := 0;
      while k < |v|
        invariant 0 <= k <= |v|
        invariant vLen == if interpret then |v| - k else |v|
        invariant s == Concat(Prepared(v[..k], interpret))
      {
        var arg := v[k];
        OperandStep(v, k, interpret);
        k := k + 1;
        if !interpret {
          s := s + arg;
          continue;
        }
        s := PushDecoded(s, arg);
        vLen := vLen - 1;  // a space goes to standard output when vLen != 0
      }
      assert v[..k] == v;
    }
    assert s == Body(opts, v, b);
    if opts.addNewlineAtEnd {
      s := s + "\n";
    }
  }

  lemma {:induction false} PreparedPlain(operands: seq<string>)
    ensures Prepared(operands, false) == operands
    decreases |operands|
  {
    if operands != [] {
      PreparedPlain(operands[1..]);
      assert operands == [operands[0]] + operands[1..];
    }
  }

  /** The first version flag decides the output, whatever precedes it (other
      than "-n") or follows it: "Version " and the version, and the newline
      unless "-n" came first. "-v" and "--version" give the same output. */
  lemma VersionOutput(pre: seq<string>, flag: string, rest: seq<string>, b: BuildInfo)
    requires forall j :: 0 <= j < |pre| ==> !IsStopFlag(pre[j])
    requires IsVersionFlag(flag)
    ensures EchoOutput(pre + [flag] + rest, b) == "Version " + b.version + (if "-n" in pre then "" else "\n")
  {
    assert pre + [flag] + rest == pre + ([flag] + rest);
    ClassifyAppend(pre, [flag] + rest);
    ClassifyNoStop(pre);
    assert ([flag] + rest)[0] == flag;
  }

  /** The first help flag decides the output in the same way: the help text,
      and the newline unless "-n" came first. */
  lemma HelpOutput(pre: seq<string>, flag: string, rest: seq<string>, b: BuildInfo)
    requires forall j :: 0 <= j < |pre| ==> !IsStopFlag(pre[j])
    requires IsHelpFlag(flag)
    ensures EchoOutput(pre + [flag] + rest, b) == b.helpText + (if "-n" in pre then "" else "\n")
  {
    assert pre + [flag] + rest == pre + ([flag] + rest);
    ClassifyAppend(pre, [flag] + rest);
    ClassifyNoStop(pre);
    assert ([flag] + rest)[0] == flag;
  }

  /** Adding "-n" anywhere before the stop point gives the same string without
      its final newline, or the same string if the newline was already off. */
  lemma DashNDropsFinalNewline(pre: seq<string>, post: seq<string>, b: BuildInfo)
    requires forall j :: 0 <= j < |pre| ==> !IsStopFlag(pre[j])
    ensures var withNewline := Classify(pre + post).0.addNewlineAtEnd;
      EchoOutput(pre + post, b) == EchoOutput(pre + ["-n"] + post, b) + (if withNewline then "\n" else "")
  {
    InsertDashN(pre, post);
  }

  /** Without escapes the body is the operands one after another, with no
      separator in the returned string. */
  lemma PlainBodyIsConcatenation(o: EchoOptions, operands: seq<string>, b: BuildInfo)
    requires !o.showVersionInfo && !o.showHelpInfo && !o.interpretEscapedCharacters
    ensures Body(o, operands, b) == Concat(operands)
  {
    PreparedPlain(operands);
  }

  /** A command line without options returns its tokens concatenated, then a
      newline. */
  lemma PlainArguments(args: seq<string>, b: BuildInfo)
    requires forall j :: 0 <= j < |args| ==> !StartsWithDash(args[j])
    ensures EchoOutput(args, b) == Concat(args) + "\n"
  {
    NoOptionsMeansDefaults(args);
    PreparedPlain(args);
  }

  /** "-e" changes nothing when no token holds a backslash. */
  lemma DashEWithoutBackslashes(args: seq<string>, b: BuildInfo)
    requires forall j :: 0 <= j < |args| ==> Backslash !in args[j]
    ensures EchoOutput(["-e"] + args, b) == EchoOutput(args, b)
  {
    assert (["-e"] + args)[0] == "-e" && (["-e"] + args)[1..] == args;
    var operands := Classify(args).1;
    forall x | x in operands
      ensures Backslash !in x
    {
      OperandsAreScannedPlainTokens(args, x);
      var k := StopIndex(args);
      assert x in args[..k];
    }
    PreparedDecodedPlain(operands);
  }

  lemma {:induction false} PreparedDecodedPlain(operands: seq<string>)
    requires forall x :: x in operands ==> Backslash !in x
    ensures Prepared(operands, true) == Prepared(operands, false)
    decreases |operands|
  {
    if operands != [] {
      DecodeNoBackslash(operands[0]);
      assert forall x :: x in operands[1..] ==> x in operands;
      PreparedDecodedPlain(operands[1..]);
    }
  }

  /* The returned string has no separator between operands: the space is
     printed to standard output during rendering, and only in escape mode, so
     it is written before the returned string and never between the operands.
     What follows is the evidently intended renderer, which joins the operands
     with single spaces. */

  /** The two operands "a" and "b" come back as "ab": the returned string
      does not separate operands. */
  lemma OperandsRunTogether(b: BuildInfo)
    ensures EchoOutput(["a", "b"], b) == "ab\n"
    ensures EchoOutput(["-e", "a", "b"], b) == "ab\n"
  {
    var args := ["a", "b"];
    assert !StartsWithDash(args[0]) && !StartsWithDash(args[1]);
    PlainArguments(args, b);
    assert Concat(args) == "a" + Concat(["b"]);
    assert Concat(["b"]) == "b" + Concat([]);
    DashEWithoutBackslashes(args, b);
    assert ["-e"] + args == ["-e", "a", "b"];
  }

  /** The items of `xs` with `sep` between each two of them. */
  function Join(xs: seq<string>, sep: string): string {
    if xs == [] then []
    else if |xs| == 1 then xs[0]
    else xs[0] + sep + Join(xs[1..], sep)
  }

  /** The body with the operands separated by single spaces. */
  function JoinedBody(o: EchoOptions, operands: seq<string>, b: BuildInfo): string {
    if o.showVersionInfo then VersionInfo(b)
    else if o.showHelpInfo then HelpInfo(b)
    else Join(Prepared(operands, o.interpretEscapedCharacters), " ")
  }

  /** The string the intended renderer returns for a command line. */
  function JoinedEchoOutput(args: seq<string>, b: BuildInfo): string {
    var (o, operands) := Classify(args);
    JoinedBody(o, operands, b) + Newline(o)
  }

  /** Joining one more item appends the separator and then that item. */
  lemma {:induction false} JoinAppend(xs: seq<string>, x: string, sep: string)
    requires xs != []
    ensures Join(xs + [x], sep) == Join(xs, sep) + sep + x
    decreases |xs|
  {
    assert (xs + [x])[0] == xs[0] && (xs + [x])[1..] == xs[1..] + [x];
    if |xs| > 1 {
      JoinAppend(xs[1..], x, sep);
    } else {
      assert xs[1..] + [x] == [x];
    }
  }

  /** With an empty separator, joining is concatenation. */
  lemma {:induction false} JoinEmptySeparator(xs: seq<string>)
    ensures Join(xs, "") == Concat(xs)
    decreases |xs|
  {
    if |xs| == 1 {
      assert Concat(xs) == xs[0] + Concat([]);
    } else if |xs| > 1 {
      JoinEmptySeparator(xs[1..]);
    }
  }

  /** The joined string is the items' length plus one separator between each
      two items. */
  lemma {:induction false} JoinLength(xs: seq<string>, sep: string)
    requires xs != []
    ensures |Join(xs, sep)| == |Concat(xs)| + (|xs| - 1) * |sep|
    decreases |xs|
  {
    if |xs| > 1 {
      JoinLength(xs[1..], sep);
    } else {
      assert Concat(xs) == xs[0] + Concat([]);
    }
  }

  /** With at most one operand the intended and the actual renderer agree. */
  lemma JoinedAgreesOnOneOperand(args: seq<string>, b: BuildInfo)
    requires |Classify(args).1| <= 1
    ensures JoinedEchoOutput(args, b) == EchoOutput(args, b)
  {
    var ops := Prepared(Classify(args).1, Classify(args).0.interpretEscapedCharacters);
    if |ops| == 1 {
      assert Concat(ops) == ops[0] + Concat([]);
    }
  }

  /** The intended renderer returns a command line without options as its
      tokens separated by single spaces, then a newline. */
  lemma JoinedPlainArguments(args: seq<string>, b: BuildInfo)
    requires forall j :: 0 <= j < |args| ==> !StartsWithDash(args[j])
    ensures JoinedEchoOutput(args, b) == Join(args, " ") + "\n"
  {
    NoOptionsMeansDefaults(args);
    PreparedPlain(args);
  }

  /** The intended renderer returns the operands "a" and "b" as "a b". */
  lemma JoinedSeparatesOperands(b: BuildInfo)
    ensures JoinedEchoOutput(["a", "b"], b) == "a b\n"
  {
    var ab := ["a", "b"];
    assert !StartsWithDash(ab[0]) && !StartsWithDash(ab[1]);
    JoinedPlainArguments(ab, b);
    assert Join(ab, " ") == "a" + " " + Join(["b"], " ");
  }
}
