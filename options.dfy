/** The argument classifier of the echo utility: it scans the command-line
    tokens left to right and builds the option switches and the operand list
    (src/main.rs:1-17, 64-87). */
module Options {

  /** The four switches of one invocation. */
  datatype EchoOptions = EchoOptions(
    addNewlineAtEnd: bool,
    interpretEscapedCharacters: bool,
    showHelpInfo: bool,
    showVersionInfo: bool)

  /** The switches before any token is seen. */
  function New(): EchoOptions {
    EchoOptions(true, false, false, false)
  }

  predicate StartsWithDash(t: string) {
    |t| > 0 && t[0] == '-'
  }

  predicate IsVersionFlag(t: string) {
    t == "--version" || t == "-v"
  }

  predicate IsHelpFlag(t: string) {
    t == "--help" || t == "-h"
  }

  /** A token after which the scan stops. */
  predicate IsStopFlag(t: string) {
    IsVersionFlag(t) || IsHelpFlag(t)
  }

  /** Index of the first version or help flag, or |args| when there is none. */
  function StopIndex(args: seq<string>): (k: nat)
    ensures k <= |args|
    ensures forall j :: 0 <= j < k ==> !IsStopFlag(args[j])
    ensures k < |args| ==> IsStopFlag(args[k])
  {
    if args == [] then 0
    else if IsStopFlag(args[0]) then 0
    else 1 + StopIndex(args[1..])
  }

  /** StopIndex is the one index with no stop flag before it and a stop flag
      (or the end of the tokens) at it. */
  lemma {:induction false} StopIndexIs(args: seq<string>, k: nat)
    requires k <= |args|
    requires forall j :: 0 <= j < k ==> !IsStopFlag(args[j])
    requires k < |args| ==> IsStopFlag(args[k])
    ensures StopIndex(args) == k
    decreases k
  {
    if k > 0 {
      assert !IsStopFlag(args[0]);
      StopIndexIs(args[1..], k - 1);
    }
  }

  /** The tokens the scan looks at: everything before the stop flag. */
  function Scanned(args: seq<string>): seq<string> {
    args[..StopIndex(args)]
  }

  /** The tokens of `ts` kept as operands, in their order. */
  function Operands(ts: seq<string>): (r: seq<string>)
    ensures |r| <= |ts|
    ensures forall j :: 0 <= j < |r| ==> !StartsWithDash(r[j])
  {
    if ts == [] then []
    else
      var last := ts[|ts| - 1];
      Operands(ts[..|ts| - 1]) + (if StartsWithDash(last) then [] else [last])
  }

  /** What the scan of `args` produces: the switches and the operands. Each
      token is looked at in turn; a version or help flag ends the scan. */
  function Classify(args: seq<string>): (r: (EchoOptions, seq<string>))
    ensures !(r.0.showHelpInfo && r.0.showVersionInfo)
    ensures |r.1| <= |args|
    ensures forall j :: 0 <= j < |r.1| ==> !StartsWithDash(r.1[j])
    decreases |args|
  {
    if args == [] then (New(), [])
    else
      var a := args[0];
      if IsVersionFlag(a) then (New().(showVersionInfo := true), [])
      else if IsHelpFlag(a) then (New().(showHelpInfo := true), [])
      else
        var (o, s) := Classify(args[1..]);
        if a == "-n" then (o.(addNewlineAtEnd := false), s)
        else if a == "-e" then (o.(interpretEscapedCharacters := true), s)
        else if StartsWithDash(a) then (o, s)
        else (o, [a] + s)
  }

  /** The result of scanning more tokens after a prefix whose scan gave the
      switches `o` and the operands `s` and did not stop. */
  function Resume(o: EchoOptions, s: seq<string>, rest: (EchoOptions, seq<string>)): (EchoOptions, seq<string>) {
    (EchoOptions(
       o.addNewlineAtEnd && rest.0.addNewlineAtEnd,
       o.interpretEscapedCharacters || rest.0.interpretEscapedCharacters,
       rest.0.showHelpInfo,
       rest.0.showVersionInfo),
     s + rest.1)
  }

  /** The scan itself: one token per iteration, stopping at the first version
      or help flag. The "unknown option" diagnostic it prints is not part of
      its result and is not modelled. */
  method ProcessArgs(v: seq<string>) returns (o: EchoOptions, s: seq<string>)
    ensures (o, s) == Classify(v)
  {
    s := [];
    o := New();
    var i := 0;
    assert v[0..] == v;
    assert Resume(o, s, Classify(v)) == Classify(v) by {
      assert s + Classify(v).1 == Classify(v).1;
    }
    while i < |v|
      invariant 0 <= i <= |v|
      invariant !o.showHelpInfo && !o.showVersionInfo
      invariant Classify(v) == Resume(o, s, Classify(v[i..]))
    {
      var a := v[i];
      assert v[i..][0] == a && v[i..][1..] == v[i + 1..];
      var rest := Classify(v[i + 1..]).1;
      if a != "-n" && a != "-e" && !IsStopFlag(a) && !StartsWithDash(a) {
        assert s + ([a] + rest) == (s + [a]) + rest;
      }
      assert s + [] == s;
      if a == "-n" {
        o := o.(addNewlineAtEnd := false);
      } else if a == "-e" {
        o := o.(interpretEscapedCharacters := true);
      } else if a == "--version" || a == "-v" {
        o := o.(showVersionInfo := true);
        return;
      } else if a == "--help" || a == "-h" {
        o := o.(showHelpInfo := true);
        return;
      } else if StartsWithDash(a) {
        // the source reports the token as an unknown option and drops it
      } else {
        s := s + [a];
      }
      i := i + 1;
    }
    assert v[i..] == [] && s + [] == s;
  }

  /** Operands distributes over concatenation: the order of tokens is kept. */
  lemma {:induction false} OperandsAppend(a: seq<string>, b: seq<string>)
    ensures Operands(a + b) == Operands(a) + Operands(b)
    decreases |b|
  {
    if b == [] {
      assert a + b == a;
    } else {
      var b' := b[..|b| - 1];
      assert (a + b)[..|a + b| - 1] == a + b';
      OperandsAppend(a, b');
    }
  }

  /** A token is an operand exactly when it occurs and does not start with '-'. */
  lemma {:induction false} OperandsMembership(ts: seq<string>, x: string)
    ensures x in Operands(ts) <==> x in ts && !StartsWithDash(x)
    decreases |ts|
  {
    if ts != [] {
      var init := ts[..|ts| - 1];
      assert ts == init + [ts[|ts| - 1]];
      OperandsMembership(init, x);
    }
  }

  /** The stop point and the scanned tokens of a command line whose first
      token is not a stop flag, in terms of the rest of the line. */
  lemma ScannedCons(args: seq<string>)
    requires args != [] && !IsStopFlag(args[0])
    ensures StopIndex(args) == 1 + StopIndex(args[1..])
    ensures args[..StopIndex(args)] == [args[0]] + args[1..][..StopIndex(args[1..])]
    ensures StopIndex(args) < |args| ==> args[StopIndex(args)] == args[1..][StopIndex(args[1..])]
  {
    var k := StopIndex(args[1..]);
    assert StopIndex(args) == 1 + k;
    assert args[..k + 1] == [args[0]] + args[1..][..k];
  }

  lemma OperandsCons(a: string, rest: seq<string>)
    ensures Operands([a] + rest) == (if StartsWithDash(a) then [] else [a]) + Operands(rest)
  {
    OperandsAppend([a], rest);
    assert [a][..0] == [];
  }

  /** The scan, stated without the token-by-token steps: the switches "-n" and
      "-e" count when they occur before the first version or help flag, that
      flag decides which of the two texts is shown, and the operands are the
      tokens before it that do not start with '-', in their order. */
  lemma {:induction false} ClassifyScanned(args: seq<string>)
    ensures var k := StopIndex(args);
      Classify(args) == (
        EchoOptions(
          "-n" !in args[..k],
          "-e" in args[..k],
          k < |args| && IsHelpFlag(args[k]),
          k < |args| && IsVersionFlag(args[k])),
        Operands(args[..k]))
    decreases |args|
  {
    if args != [] && !IsStopFlag(args[0]) {
      var a, rest := args[0], args[1..];
      ClassifyScanned(rest);
      ScannedCons(args);
      var scanned := rest[..StopIndex(rest)];
      OperandsCons(a, scanned);
      assert "-n" in [a] + scanned <==> a == "-n" || "-n" in scanned;
      assert "-e" in [a] + scanned <==> a == "-e" || "-e" in scanned;
      if StartsWithDash(a) {
        assert [] + Operands(scanned) == Operands(scanned);
      }
    }
  }

  /** A token is returned as an operand exactly when it occurs before the
      first version or help flag and does not start with '-'. */
  lemma OperandsAreScannedPlainTokens(args: seq<string>, x: string)
    ensures x in Classify(args).1 <==> x in Scanned(args) && !StartsWithDash(x)
  {
    ClassifyScanned(args);
    OperandsMembership(Scanned(args), x);
  }

  /** Without any token that starts with '-', the switches keep their defaults
      and every token is an operand; in particular no tokens give the defaults
      and no operands. */
  lemma {:induction false} NoOptionsMeansDefaults(args: seq<string>)
    requires forall j :: 0 <= j < |args| ==> !StartsWithDash(args[j])
    ensures Classify(args) == (New(), args)
    decreases |args|
  {
    if args != [] {
      var a := args[0];
      assert !StartsWithDash(a);
      assert a != "-n" && a != "-e" && !IsStopFlag(a) by {
        assert StartsWithDash("-n") && StartsWithDash("-e");
        assert StartsWithDash("-v") && StartsWithDash("-h");
        assert StartsWithDash("--version") && StartsWithDash("--help");
      }
      assert forall j :: 0 <= j < |args[1..]| ==> !StartsWithDash(args[1..][j]) by {
        forall j | 0 <= j < |args[1..]|
          ensures !StartsWithDash(args[1..][j])
        {
          assert args[1..][j] == args[j + 1];
        }
      }
      NoOptionsMeansDefaults(args[1..]);
      assert args == [args[0]] + args[1..];
    }
  }

  /** With no version or help flag, every token is scanned. */
  lemma ClassifyNoStop(pre: seq<string>)
    requires forall j :: 0 <= j < |pre| ==> !IsStopFlag(pre[j])
    ensures Classify(pre) == (EchoOptions("-n" !in pre, "-e" in pre, false, false), Operands(pre))
  {
    StopIndexIs(pre, |pre|);
    ClassifyScanned(pre);
    assert pre[..|pre|] == pre;
  }

  /** Scanning `pre + post`, where `pre` holds no stop flag, is scanning `pre`
      and then resuming with `post`. */
  lemma {:induction false} ClassifyAppend(pre: seq<string>, post: seq<string>)
    requires forall j :: 0 <= j < |pre| ==> !IsStopFlag(pre[j])
    ensures !Classify(pre).0.showHelpInfo && !Classify(pre).0.showVersionInfo
    ensures Classify(pre + post) == Resume(Classify(pre).0, Classify(pre).1, Classify(post))
    decreases |pre|
  {
    if pre == [] {
      assert pre + post == post;
      assert [] + Classify(post).1 == Classify(post).1;
    } else {
      var a := pre[0];
      assert !IsStopFlag(pre[0]);
      assert (pre + post)[0] == a && (pre + post)[1..] == pre[1..] + post;
      ClassifyAppend(pre[1..], post);
      var s, t := Classify(pre[1..]).1, Classify(post).1;
      if a != "-n" && a != "-e" && !StartsWithDash(a) {
        assert [a] + (s + t) == ([a] + s) + t;
      }
    }
  }

  /** Tokens after the first version or help flag do not change the result. */
  lemma ClassifyIgnoresAfterStop(pre: seq<string>, flag: string, rest: seq<string>)
    requires forall j :: 0 <= j < |pre| ==> !IsStopFlag(pre[j])
    requires IsStopFlag(flag)
    ensures Classify(pre + [flag] + rest) == Classify(pre + [flag])
  {
    assert pre + [flag] + rest == pre + ([flag] + rest);
    ClassifyAppend(pre, [flag] + rest);
    ClassifyAppend(pre, [flag]);
    assert ([flag] + rest)[0] == flag;
  }

  /** A "-n" token placed anywhere before the stop point only switches the
      trailing newline off; everything else the scan produces is unchanged. */
  lemma InsertDashN(pre: seq<string>, post: seq<string>)
    requires forall j :: 0 <= j < |pre| ==> !IsStopFlag(pre[j])
    ensures var (o, operands) := Classify(pre + post);
      Classify(pre + ["-n"] + post) == (o.(addNewlineAtEnd := false), operands)
  {
    assert pre + ["-n"] + post == pre + (["-n"] + post);
    ClassifyAppend(pre, ["-n"] + post);
    ClassifyAppend(pre, post);
    assert (["-n"] + post)[0] == "-n" && (["-n"] + post)[1..] == post;
  }
}
