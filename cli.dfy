/** The command-line parser of the entry point (src/index.ts): the only
    option is `-p` / `--prompt` followed by the prompt text. */
module Cli {
  import opened Text

  predicate IsPromptFlag(arg: string)
  {
    arg == "-p" || arg == "--prompt"
  }

  /** An argument taken as the flag's value: present, non-empty, and not
      starting with `-`. */
  predicate IsFlagValue(arg: string)
  {
    arg != [] && arg[0] != '-'
  }

  /** Position `i` holds a prompt flag followed by a usable value. */
  predicate FlagWithValueAt(args: seq<string>, i: int)
  {
    0 <= i && i + 1 < |args| && IsPromptFlag(args[i]) && IsFlagValue(args[i + 1])
  }

  /** The value of the last prompt flag with a usable value among the flags
      at positions below `n`. */
  function LastFlagValue(args: seq<string>, n: nat): Option<string>
    requires n <= |args|
    decreases n
  {
    if n == 0 then None
    else if FlagWithValueAt(args, n - 1) then Some(args[n])
    else LastFlagValue(args, n - 1)
  }

  /** There is a prompt exactly when some flag has a usable value, and then
      it is the value of the last such flag. */
  lemma {:induction false} LastFlagValueMeaning(args: seq<string>, n: nat)
    requires n <= |args|
    ensures LastFlagValue(args, n).None? <==> forall i :: 0 <= i < n ==> !FlagWithValueAt(args, i)
    ensures LastFlagValue(args, n).Some? ==>
              exists i :: (0 <= i < n && FlagWithValueAt(args, i)
                           && LastFlagValue(args, n).value == args[i + 1]
                           && forall j :: i < j < n ==> !FlagWithValueAt(args, j))
    decreases n
  {
    if n > 0 && !FlagWithValueAt(args, n - 1) {
      LastFlagValueMeaning(args, n - 1);
    }
  }

  /** The user arguments: `process.argv.slice(2)`. */
  function UserArgs(argv: seq<string>): seq<string>
  {
    if |argv| >= 2 then argv[2..] else []
  }

  /** `parseArgs`: scans the user arguments, and on a prompt flag with a
      usable value takes the value and skips over it. Skipping never hides
      a flag, because a value does not start with `-`: the result is the
      value of the last such flag. */
  method ParseArgs(argv: seq<string>) returns (prompt: Option<string>)
    ensures prompt == LastFlagValue(UserArgs(argv), |UserArgs(argv)|)
  {
    var args := UserArgs(argv);
    prompt := None;
    var i := 0;
    while i < |args|
      invariant 0 <= i <= |args|
      invariant prompt == LastFlagValue(args, i)
    {
      if args[i] == "-p" || args[i] == "--prompt" {
        if i + 1 < |args| && args[i + 1] != [] && args[i + 1][0] != '-' {
          prompt := Some(args[i + 1]);
          i := i + 1;
          assert !FlagWithValueAt(args, i);
        }
      }
      i := i + 1;
    }
  }

  /** The arguments before the first two (the runtime and the script) are
      never read, and only the prompt flags and their values matter. */
  lemma PromptIgnoresLeadingArgs(argv: seq<string>, other: seq<string>)
    requires |argv| >= 2 && |other| >= 2 && argv[2..] == other[2..]
    ensures LastFlagValue(UserArgs(argv), |UserArgs(argv)|)
         == LastFlagValue(UserArgs(other), |UserArgs(other)|)
  {
  }

  /** Appending `-p value` with a usable value makes that value the prompt,
      whatever came before. */
  lemma {:induction false} LastFlagWins(args: seq<string>, flag: string, value: string)
    requires IsPromptFlag(flag) && IsFlagValue(value)
    ensures LastFlagValue(args + [flag, value], |args| + 2) == Some(value)
  {
    var full := args + [flag, value];
    assert FlagWithValueAt(full, |args|);
    assert !FlagWithValueAt(full, |args| + 1);
  }
}
