# echo, modelled in Dafny

A model of the `echo` command-line utility written in Rust (`src/main.rs`).
The program turns its command-line tokens into one output string in two steps:

- **`process_args`** is the argument classifier. It scans the tokens left to
  right and records four switches:
  - `add_newline_at_end`, switched off by `-n`;
  - `interpret_escaped_characters`, switched on by `-e`;
  - `show_version_info`, set by `-v`/`--version`;
  - `show_help_info`, set by `-h`/`--help`.

  It keeps the remaining tokens as operands. The scan stops at the first
  version or help flag. It drops every other token that starts with `-`.
- **`echo`** is the renderer. It returns the version text or the help text, or
  else the operands one after another. When escapes are on, each operand first
  goes through a backslash-escape decoder. A trailing newline is appended unless
  `-n` comes before the first version or help flag.

The project has three modules:

- `Options` (`options.dfy`) models the switch record, the classifier and its
  properties.
- `Escapes` (`escapes.dfy`) models the escape table, the decoder and an
  inverse of the decoder.
- `Render` (`render.dfy`) models the renderer, its properties and the intended
  renderer described under "Findings".

Each step has a pure specification function: `Classify`, `Decode` and
`EchoOutput`. The source's loops are methods proved equal to those functions:
`ProcessArgs`, `PushDecoded` (the decoding loop) and `Echo`.

The model follows the code where the code and the help text disagree:

- `\c` yields the control character 0x04. It does not stop the output.
- `\0NNN` and `\xHH` are not decoded. The backslash and the next character
  become one NUL character, and the digits after them are copied.
- A backslash with no character after it, one that does not complete an
  escape, becomes the digit `0` (`ab\` gives `ab0`, but `a\\` gives `a\`).
- The unknown-option message goes to standard output through `println!`. It is
  not part of the returned string.

Strings are `seq<char>`. The build-time strings are passed in as a `BuildInfo`
value: the package version, and the help text taken as one opaque string.

## Model

| member | source | states |
|---|---|---|
| `Options.StopIndex` | src/main.rs:69-79 | the scan stops at the first `--version`/`-v`/`--help`/`-h`: no such flag before the returned index, and one at it unless it is the end of the tokens |
| `Options.Operands` | src/main.rs:80-84 | the kept operands are never more than the tokens, and none of them starts with `-` |
| `Options.Classify` | src/main.rs:64-87 | the token-by-token scan: help and version are never both set, there are at most as many operands as tokens, and no operand starts with `-` |
| `Options.ProcessArgs` | src/main.rs:64-87 | the loop that sets the switches and pushes operands, breaking at a version or help flag, returns exactly `Classify` of its tokens |
| `Options.ClassifyScanned` | src/main.rs:69-85 | with k the index of the first version or help flag: newline is on iff `-n` does not occur before k, escapes are on iff `-e` occurs before k, the flag at k decides help or version, and the operands are the tokens before k without a leading `-`, in their order |
| `Options.OperandsAreScannedPlainTokens` | src/main.rs:80-84 | a string is an operand iff it occurs before the first version or help flag and does not start with `-` |
| `Options.OperandsAppend` | src/main.rs:82-83 | operands keep the order of the tokens: the operands of `a + b` are those of `a` followed by those of `b` |
| `Options.OperandsMembership` | src/main.rs:80-84 | a token is kept iff it occurs and does not start with `-` |
| `Options.NoOptionsMeansDefaults` | src/main.rs:9-16 | with no token that starts with `-` (in particular with no tokens), the switches are the defaults (newline on, escapes off, no help, no version) and every token is an operand |
| `Options.ClassifyNoStop` | src/main.rs:69-85 | with no version or help flag, newline is on iff `-n` is absent, escapes are on iff `-e` is present, and all plain tokens are operands |
| `Options.ClassifyAppend` | src/main.rs:69-85 | scanning `pre + post`, when `pre` holds no stop flag, is scanning `pre` and then resuming with `post` |
| `Options.ClassifyIgnoresAfterStop` | src/main.rs:74-79 | tokens after the first version or help flag have no effect on the result |
| `Options.InsertDashN` | src/main.rs:70-71 | a `-n` inserted anywhere before the stop point switches the newline off and changes nothing else |
| `Escapes.EscapeChar` | src/main.rs:107-119 | the escape table: the result is a backslash iff the letter is a backslash, NUL iff the letter is not one of `\ a b c e f n r t v`, and otherwise a control character below 0x20 |
| `Escapes.Decode` | src/main.rs:103-126 | the decoded operand is never longer than the operand, and at least half as long |
| `Escapes.DecodeFrom` | src/main.rs:104-126 | one step of the transducer: a plain character is copied, a backslash and the next character become one table character, and a final backslash becomes `'0'` |
| `Escapes.DecodePlainPrefix` | src/main.rs:123-125 | characters before the first backslash are copied unchanged |
| `Escapes.DecodeNoBackslash` | src/main.rs:123-125 | a string without a backslash decodes to itself |
| `Escapes.DecodeTrailingBackslash` | src/main.rs:120-122 | a backslash-free prefix followed by one backslash decodes to that prefix followed by the digit `0` (for example `ab\` gives `ab0`) |
| `Escapes.DecodeEscape` | src/main.rs:105-119 | a backslash and the next character become exactly one character, and that next character is consumed |
| `Escapes.NumericEscapesNotDecoded` | src/main.rs:118 | `\0` or `\x` followed by digits gives one NUL followed by the digits: the octal and hexadecimal forms are not decoded |
| `Escapes.Quote` | src/main.rs:107-119 | the quoted form of a string is between one and two times its length |
| `Escapes.DecodeQuote` | src/main.rs:103-126 | every string is the decoding of its quoted form, so the decoder can produce every string |
| `Render.Prepared` | src/main.rs:98-127 | each operand enters the output decoded when escapes are on and verbatim otherwise, one entry per operand |
| `Render.PushDecoded` | src/main.rs:103-127 | the character loop appends exactly `Decode(arg)` to the buffer |
| `Render.Echo` | src/main.rs:89-138 | the renderer returns exactly `EchoOutput` of the tokens, and its countdown `v_len` never goes below zero |
| `Render.VersionOutput` | src/main.rs:19-21 | the first version flag gives `"Version " + version`, then a newline unless `-n` came before it, whatever the operands, `-e` or later tokens are; `-v` and `--version` agree |
| `Render.HelpOutput` | src/main.rs:92-95 | the first help flag gives the help text, then a newline unless `-n` came before it |
| `Render.DashNDropsFinalNewline` | src/main.rs:134-136 | adding `-n` before the stop point gives the same string minus its final newline, or the same string if the newline was already off |
| `Render.PlainBodyIsConcatenation` | src/main.rs:97-101 | without escapes, the body is the operands concatenated with no separator |
| `Render.PlainArguments` | src/main.rs:97-101 | a command line without options returns its tokens concatenated, then a newline |
| `Render.DashEWithoutBackslashes` | src/main.rs:99-126 | `-e` changes nothing when no token contains a backslash |
| `Render.PreparedPlain` | src/main.rs:99-101 | without escapes, every operand is taken verbatim |
| `Render.OperandsRunTogether` | src/main.rs:97-131 | the operands `a b` come back as `ab` followed by a newline, with `-e` as well as without it |
| `Render.JoinAppend` | src/main.rs:128-131 | joining one more item appends exactly the separator and then that item, so one separator sits between each two items |
| `Render.JoinEmptySeparator` | src/main.rs:97-131 | with an empty separator the intended join is the actual concatenation, so the two renderers differ only in the separator |
| `Render.JoinLength` | src/main.rs:128-131 | the joined string is as long as the items together plus one separator for each two neighbouring items |
| `Render.JoinedAgreesOnOneOperand` | src/main.rs:128-131 | with at most one operand, the intended renderer and the actual one return the same string |
| `Render.JoinedPlainArguments` | src/main.rs:128-131 | the intended renderer returns a command line without options as its tokens separated by single spaces, then a newline |
| `Render.JoinedSeparatesOperands` | src/main.rs:128-131 | the intended renderer returns `a b` followed by a newline for the operands `a` and `b` |

## Findings

| source | as written | input that shows it | evidently intended | confidence | as-written member | corrected member |
|---|---|---|---|---|---|---|
| src/main.rs:97-131 | The space between operands is written with `print!(" ")` straight to standard output while `echo` is still running, and only in escape mode, because the `continue` at line 101 skips it. The returned string therefore holds the operands run together. | `echo a b` returns `ab\n`, and `echo -e a b` returns `ab\n` after printing one space, so standard output reads ` ab\n` | operands joined by single spaces in the returned string (`a b\n`) | high (not executed) | `Render.OperandsRunTogether` | `Render.JoinedPlainArguments` |

`Render.Echo`, `Render.EchoOutput` and the lemmas about them model the program
as written. `Render.JoinedEchoOutput` gives the intended renderer beside it,
with the lemmas `Render.JoinedAgreesOnOneOperand`,
`Render.JoinedPlainArguments` and `Render.JoinedSeparatesOperands`. It is built
on `Render.Join`, whose lemmas are `Render.JoinAppend`,
`Render.JoinEmptySeparator` and `Render.JoinLength`.

## Left out

- `main` (src/main.rs:140-144) reads the process arguments and writes to standard output. That is operating-system I/O. The model takes the tokens as a sequence and returns the string.
- The `println!` unknown-option message (src/main.rs:81) and the `print!(" ")` separator (src/main.rs:130) are writes to standard output. They never enter the returned string, so they are not modelled. The countdown `v_len` that guards the separator is kept.
- The literal help text and the build-time package name, version and authors (src/main.rs:23-62) are compile-time strings. The version string is a parameter. The help text is one opaque parameter, so its interpolation of the name, version and authors is not modelled.
- Operands are values, not references into the argument vector. Rust's borrowing has no observable effect here.
- Rust strings are UTF-8. The model works on sequences of Unicode characters, which is how `chars()` presents them.
- The commented-out test module (src/main.rs:146-151) holds no assertions.
