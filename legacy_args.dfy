/** normalizeLegacyArgs: the single-dash long flags of the older command line
    (`-all`, `-output=x`, ...) rewritten into the double-dash form the flag
    parser understands, before the command runs. */
module LegacyArgs {
  import opened Text

  /** legacyLongFlagSet */
  const LegacyLongFlags: set<string> :=
    {"all", "cmd", "short", "src", "inplace", "mainvars", "mainfuncs", "output", "case-sensitive"}

  /** How one argument before any "--" is rewritten. */
  function NormalizeArg(arg: string): (r: string)
  {
    if !HasPrefix(arg, "-") || HasPrefix(arg, "--") || arg == "-" then arg
    else if |arg| == 2 then arg
    else
      var idx := Index(arg, "=");
      if idx > 0 && arg[1..idx] in LegacyLongFlags then "--" + arg[1..idx] + arg[idx..]
      else if arg[1..] in LegacyLongFlags then "--" + arg[1..]
      else arg
  }

  /** The name a single-dash argument gives, up to its first '=' if any. */
  function FlagName(arg: string): string
    requires HasPrefix(arg, "-")
  {
    var idx := Index(arg, "=");
    if idx > 0 then arg[1..idx] else arg[1..]
  }

  /** Doubling the dash of `-name=value` by cutting at the '='. */
  lemma DashBeforeCut(arg: string, idx: nat)
    requires 1 <= idx <= |arg| && HasPrefix(arg, "-")
    ensures "--" + arg[1..idx] + arg[idx..] == "-" + arg
  {
    assert arg[1..idx] + arg[idx..] == arg[1..];
    Assoc("--", arg[1..idx], arg[idx..]);
    DashBefore(arg);
  }

  /** Doubling the dash of `-name`. */
  lemma DashBefore(arg: string)
    requires HasPrefix(arg, "-")
    ensures "--" + arg[1..] == "-" + arg
  {
    assert arg == "-" + arg[1..];
    Assoc("-", "-", arg[1..]);
  }

  /** A rewrite only doubles the leading dash, and only of a legacy flag given
      with a single dash; everything else is passed on as it is. */
  lemma NormalizeArgDoublesDash(arg: string)
    ensures NormalizeArg(arg) == arg || NormalizeArg(arg) == "-" + arg
    ensures NormalizeArg(arg) != arg <==>
      HasPrefix(arg, "-") && !HasPrefix(arg, "--") && |arg| > 2
      && (FlagName(arg) in LegacyLongFlags || arg[1..] in LegacyLongFlags)
  {
    if HasPrefix(arg, "-") && !HasPrefix(arg, "--") && arg != "-" && |arg| != 2 {
      var idx := Index(arg, "=");
      if idx > 0 {
        assert OccursAt(arg, "=", idx);
        DashBeforeCut(arg, idx);
      }
      DashBefore(arg);
    }
  }

  /** A rewritten argument is left alone by a second rewrite. */
  lemma NormalizeArgIdempotent(arg: string)
    ensures NormalizeArg(NormalizeArg(arg)) == NormalizeArg(arg)
    ensures NormalizeArg(arg) == "--" <==> arg == "--"
  {
    NormalizeArgDoublesDash(arg);
    if NormalizeArg(arg) != arg {
      var n := "-" + arg;
      assert n[..2] == "--";
    }
  }

  /** Index(s, "=") for a string without '='. */
  lemma IndexNoEquals(s: string)
    requires '=' !in s
    ensures Index(s, "=") == -1
  {
    forall k | 0 <= k < |s|
      ensures !OccursAt(s, "=", k)
    {
      assert s[k..k + 1] == [s[k]];
    }
  }

  /** Index(s, "=") for a string whose first '=' is at k. */
  lemma IndexFirstEquals(s: string, k: nat)
    requires k < |s| && s[k] == '=' && '=' !in s[..k]
    ensures Index(s, "=") == k
  {
    assert s[k..k + 1] == "=";
    assert OccursAt(s, "=", k);
    forall j | 0 <= j < k
      ensures !OccursAt(s, "=", j)
    {
      assert s[j..j + 1] == [s[j]];
      assert s[j] == s[..k][j];
    }
  }

  /** Example: `-all` gains a dash. */
  lemma NormalizeArgAll()
    ensures NormalizeArg("-all") == "--all"
  {
    var a := "-all";
    assert HasPrefix(a, "-") && !HasPrefix(a, "--") by {
      assert a[..1] == "-" && a[..2] == "-a";
    }
    IndexNoEquals(a);
    assert a[1..] == "all";
    DashBefore(a);
  }

  /** A single-dash legacy flag with a value gains a dash. */
  lemma NormalizeArgWithValue(arg: string, k: nat)
    requires HasPrefix(arg, "-") && !HasPrefix(arg, "--") && 2 < |arg|
    requires 1 < k < |arg| && arg[k] == '=' && '=' !in arg[..k]
    requires arg[1..k] in LegacyLongFlags
    ensures NormalizeArg(arg) == "-" + arg
  {
    IndexFirstEquals(arg, k);
    DashBeforeCut(arg, k);
  }

  /** Example: `-output=<value>` gains a dash, whatever the value. */
  lemma NormalizeArgOutput(v: string)
    ensures NormalizeArg("-output=" + v) == "--output=" + v
  {
    var o := "-output=" + v;
    assert o[..8] == "-output=";
    assert HasPrefix(o, "-") && !HasPrefix(o, "--") by {
      assert o[..1] == "-" && o[..2] == "-o";
    }
    assert o[..7] == "-output" && o[1..7] == "output";
    NormalizeArgWithValue(o, 7);
    Assoc("-", "-output=", v);
  }

  /** Example: a two-character argument such as `-x` is passed on as it is. */
  lemma NormalizeArgShort()
    ensures NormalizeArg("-x") == "-x"
  {
  }

  /** A single-dash argument without a value that names no legacy flag is kept. */
  lemma NormalizeArgNotLegacy(arg: string)
    requires HasPrefix(arg, "-") && !HasPrefix(arg, "--") && 2 < |arg|
    requires '=' !in arg && arg[1..] !in LegacyLongFlags
    ensures NormalizeArg(arg) == arg
  {
    IndexNoEquals(arg);
  }

  /** Example: `-verbose` is not a legacy long flag and is passed on as it is. */
  lemma NormalizeArgUnknown()
    ensures NormalizeArg("-verbose") == "-verbose"
  {
    var v := "-verbose";
    assert HasPrefix(v, "-") && !HasPrefix(v, "--") by {
      assert v[..1] == "-" && v[..2] == "-v";
    }
    assert v[1..] == "verbose";
    assert "verbose" !in LegacyLongFlags;
    NormalizeArgNotLegacy(v);
  }

  /** The argument at index k comes after a "--" and is passed on verbatim. */
  predicate AfterSeparator(args: seq<string>, k: nat)
    requires k <= |args|
  {
    "--" in args[..k]
  }

  /** What normalizeLegacyArgs returns: the arguments before the first "--"
      rewritten by NormalizeArg, the "--" and everything after it unchanged. */
  function Normalized(args: seq<string>): (r: seq<string>)
    ensures |r| == |args|
  {
    if args == [] then []
    else if args[0] == "--" then args
    else [NormalizeArg(args[0])] + Normalized(args[1..])
  }

  /** Each argument of the result: verbatim after a "--", rewritten before. */
  lemma {:induction false} NormalizedAt(args: seq<string>, k: nat)
    requires k < |args|
    ensures Normalized(args)[k] == if AfterSeparator(args, k) then args[k] else NormalizeArg(args[k])
    decreases |args|
  {
    if k == 0 {
      assert args[..0] == [];
      if args[0] == "--" {
        assert HasPrefix("--", "--");
      }
    } else if args[0] == "--" {
      assert args[..k][0] == "--";
    } else {
      NormalizedAt(args[1..], k - 1);
      assert args[1..][..k - 1] == args[1..k];
      assert args[..k] == args[..1] + args[1..k];
    }
  }

  /** The rest of the arguments from an index that is not "--". */
  lemma NormalizedStep(args: seq<string>, i: nat)
    requires i < |args| && args[i] != "--"
    ensures Normalized(args[i..]) == [NormalizeArg(args[i])] + Normalized(args[i + 1..])
  {
    assert args[i..][1..] == args[i + 1..];
  }

  /** normalizeLegacyArgs. The input itself is returned when nothing was
      rewritten, which as a value is the same sequence. */
  method NormalizeLegacyArgs(args: seq<string>) returns (r: seq<string>)
    ensures r == Normalized(args)
  {
    if |args| == 0 {
      return args;
    }
    var modified := false;
    var converted: seq<string> := [];
    var i := 0;
    while i < |args|
      invariant 0 <= i <= |args|
      invariant Normalized(args) == converted + Normalized(args[i..])
      invariant !modified ==> converted == args[..i]
    {
      var arg := args[i];
      if arg == "--" {
        ghost var before := converted;
        converted := converted + [arg];
        converted := converted + args[i + 1..];
        if i != |args| - 1 {
          modified := true;
        }
        assert args[i..][1..] == args[i + 1..];
        SeparatorStep(before, args[i..], converted);
        if !modified {
          assert args[..i] + [arg] == args;
        }
        i := |args|;
        break;
      }
      NormalizedStep(args, i);
      var next := NormalizeArg(arg);
      Assoc(converted, [next], Normalized(args[i + 1..]));
      if !modified {
        assert args[..i + 1] == args[..i] + [arg];
      }
      converted := converted + [next];
      if next != arg {
        modified := true;
      }
      i := i + 1;
    }
    assert args[i..] == [];
    if !modified && |converted| == |args| {
      return args;
    }
    return converted;
  }

  /** From a "--" on, the arguments are copied as they are. */
  lemma SeparatorStep(before: seq<string>, rest: seq<string>, after: seq<string>)
    requires rest != [] && rest[0] == "--"
    requires after == before + [rest[0]] + rest[1..]
    ensures after == before + Normalized(rest)
  {
    assert rest == [rest[0]] + rest[1..];
    Assoc(before, [rest[0]], rest[1..]);
  }

  /** Normalising twice changes nothing more. */
  lemma {:induction false} NormalizedIdempotent(args: seq<string>)
    ensures Normalized(Normalized(args)) == Normalized(args)
    decreases |args|
  {
    if args != [] && args[0] != "--" {
      var n := Normalized(args);
      NormalizeArgIdempotent(args[0]);
      NormalizedIdempotent(args[1..]);
      assert n[0] != "--";
      assert n[1..] == Normalized(args[1..]);
    }
  }
}
