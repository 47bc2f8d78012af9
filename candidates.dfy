/** How run.go turns the positional arguments into the ordered list of
    (package expression, symbol, method) guesses that `execute` tries. */
module Candidates {
  import opened Text
  import opened Results
  import opened Failures

  /** One guess at what the user meant: package expression, symbol, method. */
  datatype Invocation = Invocation(pkgExpr: string, symbol: string, methodName: string)

  /** splitSymbol: the part before the first dot is the symbol, everything
      after it (further dots included) is the method. */
  function SplitSymbol(spec: string): (string, string)
  {
    if spec == "" then ("", "")
    else
      var parts := Split(spec, '.');
      if |parts| == 1 then (parts[0], "")
      else (parts[0], Join(parts[1..], "."))
  }

  /** The symbol never holds a dot; without a dot the whole text is the
      symbol, and with one, symbol + "." + method gives the text back. */
  lemma SplitSymbolRoundTrip(spec: string)
    ensures '.' !in SplitSymbol(spec).0
    ensures '.' !in spec ==> SplitSymbol(spec) == (spec, "")
    ensures '.' in spec ==> SplitSymbol(spec).0 + "." + SplitSymbol(spec).1 == spec
  {
    if spec != "" {
      var parts := Split(spec, '.');
      JoinSplit(spec, '.');
      if |parts| > 1 {
        assert Join(parts, ".") == parts[0] + "." + Join(parts[1..], ".");
      }
    }
  }

  /** startsWithUpper (unicode.IsUpper restricted to ASCII letters). */
  predicate StartsWithUpper(s: string)
  {
    s != "" && 'A' <= s[0] <= 'Z'
  }

  /** displaySymbol: how a symbol and method are shown in an error message. */
  function DisplaySymbol(symbol: string, methodName: string): string
  {
    if symbol == "" then ""
    else if methodName == "" then symbol
    else symbol + "." + methodName
  }

  /** Displaying a split symbol gives back the text the user typed, unless the
      text starts or ends with a dot. */
  lemma DisplaySplitRoundTrip(spec: string)
    requires spec != "" ==> spec[0] != '.' && spec[|spec| - 1] != '.'
    ensures DisplaySymbol(SplitSymbol(spec).0, SplitSymbol(spec).1) == spec
  {
    SplitSymbolRoundTrip(spec);
    var (symbol, methodName) := SplitSymbol(spec);
    if '.' in spec {
      assert spec == symbol + "." + methodName;
      assert spec[0] == if symbol == "" then '.' else symbol[0];
      assert spec[|spec| - 1] == if methodName == "" then '.' else methodName[|methodName| - 1];
    }
  }

  /** A trailing dot is lost: "Greeter." is split into ("Greeter", ""), which
      is displayed as "Greeter". */
  lemma TrailingDotDropped()
    ensures SplitSymbol("Greeter.") == ("Greeter", "")
    ensures DisplaySymbol(SplitSymbol("Greeter.").0, SplitSymbol("Greeter.").1) == "Greeter"
  {
    var p := "Greeter";
    assert Split(".", '.') == ["", ""] by {
      assert "."[1..] == [];
    }
    SplitAfterPiece(p, ".", '.');
    assert p + "." == "Greeter.";
    var st := Split(".", '.');
    assert st[0] == "" && st[1..] == [""];
    assert p + st[0] == p;
    assert Split("Greeter.", '.') == [p, ""];
    assert [p, ""][1..] == [""];
  }

  /** The dot positions i >= 1 below n, in increasing order: the places where
      parseCompound splits the argument. */
  function DotsBelow(arg: string, n: nat): seq<nat>
    requires n <= |arg|
  {
    if n == 0 then []
    else DotsBelow(arg, n - 1) + (if n - 1 >= 1 && arg[n - 1] == '.' then [n - 1] else [])
  }

  function Dots(arg: string): seq<nat>
  {
    DotsBelow(arg, |arg|)
  }

  /** The split positions are exactly the dots after the first character,
      listed once each in increasing order. */
  lemma {:induction false} DotsBelowExact(arg: string, n: nat)
    requires n <= |arg|
    ensures forall i :: i in DotsBelow(arg, n) <==> 1 <= i < n && arg[i] == '.'
    ensures forall a, b :: 0 <= a < b < |DotsBelow(arg, n)| ==> DotsBelow(arg, n)[a] < DotsBelow(arg, n)[b]
  {
    if n > 0 {
      DotsBelowExact(arg, n - 1);
      var prev := DotsBelow(arg, n - 1);
      assert forall k :: 0 <= k < |prev| ==> prev[k] in prev;
    }
  }

  /** The guess made at the dot at index i: package before it, symbol and
      method after it. */
  function SplitAt(arg: string, i: nat): Invocation
    requires i < |arg|
  {
    var parts := SplitSymbol(arg[i + 1..]);
    Invocation(arg[..i], parts.0, parts.1)
  }

  /** The guesses parseCompound has made once it has scanned the first n
      characters: one per split position below n, in order. */
  function ParsedBelow(arg: string, n: nat): seq<Invocation>
    requires n <= |arg|
  {
    if n == 0 then []
    else ParsedBelow(arg, n - 1) + (if n - 1 >= 1 && arg[n - 1] == '.' then [SplitAt(arg, n - 1)] else [])
  }

  /** The guesses parseCompound returns. */
  function Compound(arg: string): seq<Invocation>
  {
    ParsedBelow(arg, |arg|)
  }

  /** One guess per split position below n. */
  lemma {:induction false} ParsedBelowSize(arg: string, n: nat)
    requires n <= |arg|
    ensures |ParsedBelow(arg, n)| == |DotsBelow(arg, n)|
    decreases n
  {
    if n > 0 {
      ParsedBelowSize(arg, n - 1);
    }
  }

  /** The k-th guess below n is the split at the k-th dot below n. */
  lemma {:induction false} ParsedBelowAt(arg: string, n: nat, k: nat)
    requires n <= |arg| && k < |DotsBelow(arg, n)|
    ensures DotsBelow(arg, n)[k] < n
    ensures k < |ParsedBelow(arg, n)| && ParsedBelow(arg, n)[k] == SplitAt(arg, DotsBelow(arg, n)[k])
    decreases n
  {
    ParsedBelowSize(arg, n);
    var ds := DotsBelow(arg, n - 1);
    ParsedBelowSize(arg, n - 1);
    if k < |ds| {
      ParsedBelowAt(arg, n - 1, k);
    }
    if n - 1 >= 1 && arg[n - 1] == '.' {
      StepAt(ParsedBelow(arg, n - 1), ds, SplitAt(arg, n - 1), n - 1, k);
    }
  }

  /** Appending one more split keeps the earlier ones in place. */
  lemma StepAt(cs: seq<Invocation>, ds: seq<nat>, c: Invocation, d: nat, k: nat)
    requires |cs| == |ds| && k < |ds| + 1
    ensures (cs + [c])[k] == if k < |ds| then cs[k] else c
    ensures (ds + [d])[k] == if k < |ds| then ds[k] else d
  {
  }

  /** parseCompound */
  method ParseCompound(arg: string) returns (result: seq<Invocation>)
    ensures result == Compound(arg)
  {
    result := [];
    var i := 0;
    while i < |arg|
      invariant 0 <= i <= |arg|
      invariant result == ParsedBelow(arg, i)
    {
      if arg[i] != '.' {
        i := i + 1;
        continue;
      }
      var pkgExpr := arg[..i];
      var symbolSpec := arg[i + 1..];
      if pkgExpr == "" {
        i := i + 1;
        continue;
      }
      var (symbol, methodName) := SplitSymbol(symbolSpec);
      result := result + [Invocation(pkgExpr, symbol, methodName)];
      i := i + 1;
    }
  }

  /** The de-duplication key built by the `add` closure. */
  function Key(c: Invocation): string
  {
    c.pkgExpr + "|" + c.symbol + "|" + c.methodName
  }

  /** What `add` stores: an empty package expression becomes ".". */
  function Normalize(c: Invocation): Invocation
  {
    if c.pkgExpr == "" then c.(pkgExpr := ".") else c
  }

  /** A guess at a symbol of the package in the current directory. */
  function LocalGuess(arg: string): Invocation
  {
    var r := SplitSymbol(arg);
    Invocation(".", r.0, r.1)
  }

  /** Capitalised and without a path separator: tried as a local symbol first. */
  predicate UpperFirst(arg: string)
  {
    StartsWithUpper(arg) && '/' !in arg && '\\' !in arg
  }

  /** The compound guesses, made only when the argument has a dot. */
  function CompoundGuesses(arg: string): seq<Invocation>
  {
    if '.' in arg then Compound(arg) else []
  }

  /** The guesses of singleArgCandidates in priority order, before `add`
      drops the ones whose key was already seen. */
  function Proposals(arg: string): seq<Invocation>
  {
    (if UpperFirst(arg) then [LocalGuess(arg)] else [])
    + [Invocation(arg, "", "")]
    + CompoundGuesses(arg)
    + [LocalGuess(arg)]
  }

  /** Calls of `add` on the proposals `ps` in order, starting from the keys `seen`. */
  function AddAll(seen: set<string>, ps: seq<Invocation>): seq<Invocation>
    decreases |ps|
  {
    if ps == [] then []
    else if Key(ps[0]) in seen then AddAll(seen, ps[1..])
    else [Normalize(ps[0])] + AddAll(seen + {Key(ps[0])}, ps[1..])
  }

  /** The `add` closure of singleArgCandidates, called on the first of the
      `pending` proposals: it contributes exactly what AddAll says the first
      proposal contributes. */
  method Add(seen: set<string>, candidates: seq<Invocation>, pkgExpr: string, symbol: string, methodName: string,
             ghost pending: seq<Invocation>)
    returns (seen': set<string>, candidates': seq<Invocation>)
    requires pending != [] && pending[0] == Invocation(pkgExpr, symbol, methodName)
    ensures candidates' + AddAll(seen', pending[1..]) == candidates + AddAll(seen, pending)
  {
    var key := pkgExpr + "|" + symbol + "|" + methodName;
    if key in seen {
      return seen, candidates;
    }
    seen' := seen + {key};
    var cand := Invocation(pkgExpr, symbol, methodName);
    if cand.pkgExpr == "" {
      cand := cand.(pkgExpr := ".");
    }
    candidates' := candidates + [cand];
  }

  /** The loop of singleArgCandidates over the compound guesses. */
  method AddEach(seen: set<string>, candidates: seq<Invocation>, guesses: seq<Invocation>, ghost tail: seq<Invocation>)
    returns (seen': set<string>, candidates': seq<Invocation>)
    ensures candidates' + AddAll(seen', tail) == candidates + AddAll(seen, guesses + tail)
  {
    seen', candidates' := seen, candidates;
    ghost var rest := guesses + tail;
    assert guesses[0..] == guesses;
    var i := 0;
    while i < |guesses|
      invariant 0 <= i <= |guesses|
      invariant rest == guesses[i..] + tail
      invariant candidates' + AddAll(seen', rest) == candidates + AddAll(seen, guesses + tail)
    {
      var cand := guesses[i];
      seen', candidates' := Add(seen', candidates', cand.pkgExpr, cand.symbol, cand.methodName, rest);
      rest := rest[1..];
      assert rest == guesses[i + 1..] + tail;
      i := i + 1;
    }
    assert rest == tail;
  }

  /** The proposals as the optional capitalised local guess in front of the rest. */
  lemma ProposalsSplit(arg: string)
    ensures Proposals(arg) ==
      (if UpperFirst(arg) then [LocalGuess(arg)] else [])
      + ([Invocation(arg, "", "")] + (CompoundGuesses(arg) + [LocalGuess(arg)]))
  {
    var u: seq<Invocation> := if UpperFirst(arg) then [LocalGuess(arg)] else [];
    var w, cg, l := [Invocation(arg, "", "")], CompoundGuesses(arg), [LocalGuess(arg)];
    assert Proposals(arg) == u + w + cg + l;
    Assoc3(u, w, cg, l);
    Assoc(w, cg, l);
  }

  /** singleArgCandidates */
  method SingleArgCandidates(arg: string) returns (candidates: seq<Invocation>)
    ensures candidates == AddAll({}, Proposals(arg))
  {
    var (symbol, methodName) := SplitSymbol(arg);
    ghost var local := LocalGuess(arg);
    ghost var after := CompoundGuesses(arg) + [local];
    ghost var rest := [Invocation(arg, "", "")] + after;
    ghost var goal := AddAll({}, Proposals(arg));
    ProposalsSplit(arg);
    var seen: set<string> := {};
    candidates := [];
    if StartsWithUpper(arg) && '/' !in arg && '\\' !in arg {
      // Force local symbol lookup first.
      seen, candidates := Add(seen, candidates, ".", symbol, methodName, [local] + rest);
      assert ([local] + rest)[1..] == rest;
    } else {
      assert [] + rest == rest;
    }
    assert candidates + AddAll(seen, rest) == goal;
    // Treat as package path (no symbol).
    seen, candidates := Add(seen, candidates, arg, "", "", rest);
    assert rest[1..] == after;
    assert candidates + AddAll(seen, after) == goal;
    if '.' in arg {
      var parsed := ParseCompound(arg);
      seen, candidates := AddEach(seen, candidates, parsed, [local]);
    } else {
      assert after == [local];
    }
    assert candidates + AddAll(seen, [local]) == goal;
    // Finally, treat as local symbol if not already present.
    seen, candidates := Add(seen, candidates, ".", symbol, methodName, [local]);
    assert [local][1..] == [];
  }

  /** The keys `add` has recorded after storing the guesses `qs`. */
  function Keys(qs: seq<Invocation>): set<string>
  {
    if qs == [] then {} else {Key(qs[0])} + Keys(qs[1..])
  }

  lemma {:induction false} KeysContains(qs: seq<Invocation>)
    ensures forall i :: 0 <= i < |qs| ==> Key(qs[i]) in Keys(qs)
  {
    if qs != [] {
      KeysContains(qs[1..]);
      assert forall i :: 1 <= i < |qs| ==> qs[i] == qs[1..][i - 1];
    }
  }

  /** Guesses none of whose keys has been seen, no two sharing a key, each
      with a package expression that `add` keeps as it is. */
  predicate Fresh(seen: set<string>, qs: seq<Invocation>)
  {
    && (forall i :: 0 <= i < |qs| ==> Key(qs[i]) !in seen && qs[i].pkgExpr != "")
    && (forall i, j :: 0 <= i < j < |qs| ==> Key(qs[i]) != Key(qs[j]))
  }

  /** `add` keeps every fresh guess, in order. */
  lemma {:induction false} AddAllFresh(seen: set<string>, qs: seq<Invocation>, rest: seq<Invocation>)
    requires Fresh(seen, qs)
    ensures AddAll(seen, qs + rest) == qs + AddAll(seen + Keys(qs), rest)
    decreases |qs|
  {
    if qs == [] {
      assert qs + rest == rest && seen + Keys(qs) == seen;
    } else {
      var q := qs[0];
      assert (qs + rest)[0] == q && (qs + rest)[1..] == qs[1..] + rest;
      assert Fresh(seen + {Key(q)}, qs[1..]) by {
        forall i | 0 <= i < |qs[1..]|
          ensures Key(qs[1..][i]) != Key(q)
        {
          assert qs[1..][i] == qs[i + 1];
        }
      }
      AddAllFresh(seen + {Key(q)}, qs[1..], rest);
      assert seen + {Key(q)} + Keys(qs[1..]) == seen + Keys(qs);
      assert qs == [q] + qs[1..];
    }
  }

  /** Every compound guess is the split at a dot after the first character,
      and the dots are listed in increasing order. */
  lemma CompoundAtDots(arg: string)
    ensures |Compound(arg)| == |Dots(arg)|
    ensures forall k :: 0 <= k < |Dots(arg)| ==>
      1 <= Dots(arg)[k] < |arg| && arg[Dots(arg)[k]] == '.' && Compound(arg)[k] == SplitAt(arg, Dots(arg)[k])
    ensures forall a, b :: 0 <= a < b < |Dots(arg)| ==> Dots(arg)[a] < Dots(arg)[b]
  {
    var dots := Dots(arg);
    DotsBelowExact(arg, |arg|);
    ParsedBelowSize(arg, |arg|);
    forall k | 0 <= k < |dots|
      ensures 1 <= dots[k] < |arg| && arg[dots[k]] == '.' && Compound(arg)[k] == SplitAt(arg, dots[k])
    {
      assert dots[k] in dots;
      ParsedBelowAt(arg, |arg|, k);
    }
  }

  /** The key of the split at index i repeats arg[..i] and then has the
      separator `|` where arg has its dot. */
  lemma KeyOfSplitAt(arg: string, i: nat)
    requires i < |arg|
    ensures |Key(SplitAt(arg, i))| > i
    ensures Key(SplitAt(arg, i))[..i] == arg[..i] && Key(SplitAt(arg, i))[i] == '|'
  {
    var c := SplitAt(arg, i);
    assert Key(c) == arg[..i] + ("|" + c.symbol + "|" + c.methodName);
  }

  /** The guesses before the final local one whose keys are certainly new:
      the capitalised local guess, if made, and the package path. */
  function Head(arg: string): seq<Invocation>
  {
    (if UpperFirst(arg) then [LocalGuess(arg)] else []) + [Invocation(arg, "", "")]
  }

  /** The compound guesses never collide with each other or with the
      package-path guess, and each keeps the argument's first character. */
  lemma CompoundKeys(arg: string)
    ensures var cg := CompoundGuesses(arg);
      && (forall k :: 0 <= k < |cg| ==>
            cg[k].pkgExpr != "" && Key(cg[k]) != Key(Invocation(arg, "", "")) && Key(cg[k])[0] == arg[0])
      && (forall a, b :: 0 <= a < b < |cg| ==> Key(cg[a]) != Key(cg[b]))
  {
    var cg, dots := CompoundGuesses(arg), Dots(arg);
    CompoundAtDots(arg);
    var whole := Key(Invocation(arg, "", ""));
    assert whole == arg + "||";
    if '.' !in arg {
      return;
    }
    forall k | 0 <= k < |cg|
      ensures cg[k].pkgExpr != "" && Key(cg[k]) != whole && Key(cg[k])[0] == arg[0]
    {
      var d := dots[k];
      KeyOfSplitAt(arg, d);
      assert |cg[k].pkgExpr| == d;
      assert Key(cg[k])[d] != whole[d];
      assert Key(cg[k])[0] == Key(cg[k])[..d][0];
    }
    forall a, b | 0 <= a < b < |cg|
      ensures Key(cg[a]) != Key(cg[b])
    {
      var da, db := dots[a], dots[b];
      KeyOfSplitAt(arg, da);
      KeyOfSplitAt(arg, db);
      assert Key(cg[b])[da] == Key(cg[b])[..db][da] == arg[da];
    }
  }

  /** Two runs of fresh guesses whose keys never meet are fresh together. */
  lemma FreshConcat(seen: set<string>, a: seq<Invocation>, b: seq<Invocation>)
    requires Fresh(seen, a) && Fresh(seen, b)
    requires forall i, j :: 0 <= i < |a| && 0 <= j < |b| ==> Key(a[i]) != Key(b[j])
    ensures Fresh(seen, a + b)
  {
    var qs := a + b;
    forall i, j | 0 <= i < j < |qs|
      ensures Key(qs[i]) != Key(qs[j])
    {
      if j >= |a| {
        assert qs[j] == b[j - |a|];
        if i >= |a| {
          assert qs[i] == b[i - |a|];
        }
      }
    }
  }

  /** For a non-empty argument, the head and the compound guesses never
      collide. */
  lemma HeadCompoundFresh(arg: string)
    requires arg != ""
    ensures Fresh({}, Head(arg) + CompoundGuesses(arg))
  {
    var head, cg := Head(arg), CompoundGuesses(arg);
    CompoundKeys(arg);
    var whole := Invocation(arg, "", "");
    assert Key(whole)[0] == arg[0];
    if UpperFirst(arg) {
      var local := LocalGuess(arg);
      assert Key(local)[0] == '.';
      assert head == [local, whole];
    } else {
      assert head == [whole];
    }
    FreshConcat({}, head, cg);
  }

  /** singleArgCandidates on a non-empty argument, stated without `add`: the
      capitalised local guess (if made), the package path, every compound
      guess in dot order, and the local guess when its key is still new. */
  lemma SingleArgOrder(arg: string)
    requires arg != ""
    ensures AddAll({}, Proposals(arg)) ==
      Head(arg) + CompoundGuesses(arg)
      + (if Key(LocalGuess(arg)) in Keys(Head(arg) + CompoundGuesses(arg)) then [] else [LocalGuess(arg)])
  {
    var qs := Head(arg) + CompoundGuesses(arg);
    assert Proposals(arg) == qs + [LocalGuess(arg)];
    HeadCompoundFresh(arg);
    AddAllFresh({}, qs, [LocalGuess(arg)]);
    assert {} + Keys(qs) == Keys(qs);
  }

  /** Fresh guesses followed by at most one more whose key is new: no two
      share a key and every package expression is kept. */
  lemma FreshExtended(qs: seq<Invocation>, extra: seq<Invocation>)
    requires Fresh({}, qs)
    requires |extra| <= 1
    requires forall x :: x in extra ==> Key(x) !in Keys(qs) && x.pkgExpr != ""
    ensures var r := qs + extra;
      && (forall i, j :: 0 <= i < j < |r| ==> Key(r[i]) != Key(r[j]))
      && (forall i :: 0 <= i < |r| ==> r[i].pkgExpr != "")
  {
    KeysContains(qs);
    var r := qs + extra;
    forall i, j | 0 <= i < j < |r|
      ensures Key(r[i]) != Key(r[j])
    {
      if j >= |qs| {
        assert r[j] == extra[0] && r[i] == qs[i];
      }
    }
    forall i | 0 <= i < |r|
      ensures r[i].pkgExpr != ""
    {
      if i >= |qs| {
        assert r[i] == extra[0];
      }
    }
  }

  /** The promises of singleArgCandidates on a non-empty argument: no two
      candidates share a key, every package expression is non-empty, the
      package-path guess is present, and the first candidate is the local
      guess exactly when the argument is capitalised and has no separator. */
  lemma SingleArgCandidatesProperties(arg: string)
    requires arg != ""
    ensures var r := AddAll({}, Proposals(arg));
      && (forall i, j :: 0 <= i < j < |r| ==> Key(r[i]) != Key(r[j]))
      && (forall i :: 0 <= i < |r| ==> r[i].pkgExpr != "")
      && Invocation(arg, "", "") in r
      && r[0] == (if UpperFirst(arg) then LocalGuess(arg) else Invocation(arg, "", ""))
  {
    var head := Head(arg);
    var qs := head + CompoundGuesses(arg);
    var local := LocalGuess(arg);
    var extra := if Key(local) in Keys(qs) then [] else [local];
    SingleArgOrder(arg);
    HeadCompoundFresh(arg);
    FreshExtended(qs, extra);
    var r := qs + extra;
    assert r[|head| - 1] == head[|head| - 1] == Invocation(arg, "", "");
    assert r[0] == head[0];
  }

  /** With an empty argument the key is taken before "" becomes ".", so the
      package in the current directory is proposed twice. */
  lemma EmptyArgTwice()
    ensures AddAll({}, Proposals("")) == [Invocation(".", "", ""), Invocation(".", "", "")]
  {
    assert SplitSymbol("") == ("", "");
    assert Proposals("") == [Invocation("", "", ""), Invocation(".", "", "")];
    assert Key(Invocation("", "", "")) != Key(Invocation(".", "", "")) by {
      assert |Key(Invocation("", "", ""))| == 2;
    }
  }

  /** What buildCandidates returns for the positional arguments. */
  function ArgCandidates(args: seq<string>): Result<seq<Invocation>, Failure>
  {
    if |args| == 0 then Ok([Invocation(".", "", "")])
    else if |args| == 1 then Ok(AddAll({}, Proposals(args[0])))
    else if |args| == 2 then Ok([Invocation(args[0], SplitSymbol(args[1]).0, SplitSymbol(args[1]).1)])
    else Err(Usage(TooManyPositionals))
  }

  /** buildCandidates: the guesses for 0, 1 and 2 positional arguments; more
      are a usage error. */
  method BuildCandidates(args: seq<string>) returns (r: Result<seq<Invocation>, Failure>)
    ensures r == ArgCandidates(args)
    ensures |args| == 0 ==> r == Ok([Invocation(".", "", "")])
    ensures |args| == 1 ==> r == Ok(AddAll({}, Proposals(args[0])))
    ensures |args| == 2 ==> r == Ok([Invocation(args[0], SplitSymbol(args[1]).0, SplitSymbol(args[1]).1)])
    ensures |args| > 2 <==> r == Err(Usage(TooManyPositionals))
  {
    if |args| == 0 {
      return Ok([Invocation(".", "", "")]);
    } else if |args| == 1 {
      var candidates := SingleArgCandidates(args[0]);
      return Ok(candidates);
    } else if |args| == 2 {
      var (symbol, methodName) := SplitSymbol(args[1]);
      return Ok([Invocation(args[0], symbol, methodName)]);
    } else {
      return Err(Usage(TooManyPositionals));
    }
  }
}
