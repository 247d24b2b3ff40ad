/** The command-line parser: declared flags, the token loop, and look-ups. */
module Cmdline {
  import opened Wrappers

  datatype Argument = Argument(longName: string, shortName: string, description: string,
                               required: bool, found: bool, value: string)

  datatype Error = RequiresValue(token: string) | Unknown(token: string) | Missing(name: string)

  /** The arguments as the loop leaves them, and the exception it throws, if any. */
  datatype Outcome = Outcome(args: seq<Argument>, error: Option<Error>)

  predicate Named(a: Argument, name: string) {
    a.longName == name || a.shortName == name
  }

  /** The first argument with that long or short name; |args| if there is none. */
  function Find(args: seq<Argument>, name: string): (k: nat)
    ensures k <= |args|
    ensures k < |args| ==> Named(args[k], name)
    ensures forall j | 0 <= j < k :: !Named(args[j], name)
  {
    if args == [] then 0
    else if Named(args[0], name) then 0
    else 1 + Find(args[1..], name)
  }

  predicate Dashed(token: string) {
    token != "" && token[0] == '-'
  }

  /** Effect of a matched flag on its argument. */
  function Touch(args: seq<Argument>, k: nat, value: Option<string>): seq<Argument>
    requires k < |args|
  {
    args[k := args[k].(found := true, value := if value.Some? then value.value else args[k].value)]
  }

  /** The token loop. */
  function ParseTokens(args: seq<Argument>, tokens: seq<string>): Outcome
    decreases |tokens|
  {
    if tokens == [] then Outcome(args, None)
    else
      var k := Find(args, tokens[0]);
      if k == |args| then Outcome(args, Some(Unknown(tokens[0])))
      else if |tokens| > 1 && !Dashed(tokens[1]) then
        ParseTokens(Touch(args, k, Some(tokens[1])), tokens[2..])
      else if args[k].required && args[k].value == "" then
        Outcome(Touch(args, k, None), Some(RequiresValue(tokens[0])))
      else ParseTokens(Touch(args, k, None), tokens[1..])
  }

  /** The tokens after the first "--" that follows the program name. */
  function AppTokens(argv: seq<string>): seq<string> {
    if |argv| <= 1 then []
    else if argv[1] == "--" then argv[2..]
    else AppTokens(argv[1..])
  }

  /** The first required argument that was not seen. */
  function FirstMissing(args: seq<Argument>): Option<Error> {
    if args == [] then None
    else if args[0].required && !args[0].found then Some(Missing(args[0].longName))
    else FirstMissing(args[1..])
  }

  function Parse(args: seq<Argument>, argv: seq<string>): Outcome {
    var o := ParseTokens(args, AppTokens(argv));
    if o.error.Some? then o else Outcome(o.args, FirstMissing(o.args))
  }

  function GetString(args: seq<Argument>, name: string): string {
    var k := Find(args, name);
    if k < |args| then args[k].value else ""
  }

  predicate GetBool(args: seq<Argument>, name: string) {
    GetString(args, name) in {"true", "1", "yes", "-h", "--help"}
  }

  // ----- rendering and its inverse -----

  /** A flag as written, with the value that follows it, if any. */
  datatype Item = Item(flag: string, value: Option<string>)

  function Render(items: seq<Item>): seq<string> {
    if items == [] then []
    else
      [items[0].flag] + (if items[0].value.Some? then [items[0].value.value] else []) + Render(items[1..])
  }

  lemma RenderOne(x: Item, rest: seq<Item>)
    ensures Render([x] + rest) == [x.flag] + (if x.value.Some? then [x.value.value] else []) + Render(rest)
  {
    assert ([x] + rest)[1..] == rest;
  }

  /**
   Items the parser can read back: flags are declared, values do not look like flags, a flag
   without a value is not followed by something that would be taken for one, and a required
   argument that has no value yet gets one.
   */
  predicate Readable(args: seq<Argument>, items: seq<Item>)
    decreases |items|
  {
    items == []
    || (var k := Find(args, items[0].flag);
        && k < |args|
        && (match items[0].value
            case Some(v) => !Dashed(v)
            case None =>
              && !(args[k].required && args[k].value == "")
              && (|items| > 1 ==> Dashed(items[1].flag)))
        && Readable(Touch(args, k, items[0].value), items[1..]))
  }

  /** What the items do to the arguments. */
  function ApplyAll(args: seq<Argument>, items: seq<Item>): seq<Argument>
    decreases |items|
  {
    if items == [] then args
    else
      var k := Find(args, items[0].flag);
      if k == |args| then args else ApplyAll(Touch(args, k, items[0].value), items[1..])
  }

  /** Parsing a rendering gives back exactly its effect, without error. */
  lemma {:induction false} ParseOfRender(args: seq<Argument>, items: seq<Item>)
    requires Readable(args, items)
    ensures ParseTokens(args, Render(items)) == Outcome(ApplyAll(args, items), None)
    decreases |items|
  {
    if items != [] {
      var k := Find(args, items[0].flag);
      var args' := Touch(args, k, items[0].value);
      var rest := items[1..];
      ParseOfRender(args', rest);
      var tokens := Render(items);
      match items[0].value
      case Some(v) =>
        assert tokens[0] == items[0].flag && tokens[1] == v && tokens[2..] == Render(rest);
      case None =>
        assert tokens[0] == items[0].flag && tokens[1..] == Render(rest);
        if |tokens| > 1 {
          assert rest != [];
          assert tokens[1] == Render(rest)[0] == rest[0].flag == items[1].flag;
        }
    }
  }

  /** The items a token list was read as. */
  function Reading(args: seq<Argument>, tokens: seq<string>): seq<Item>
    decreases |tokens|
  {
    if tokens == [] then []
    else
      var k := Find(args, tokens[0]);
      if k == |args| then []
      else if |tokens| > 1 && !Dashed(tokens[1]) then
        [Item(tokens[0], Some(tokens[1]))] + Reading(Touch(args, k, Some(tokens[1])), tokens[2..])
      else [Item(tokens[0], None)] + Reading(Touch(args, k, None), tokens[1..])
  }

  lemma ReadableOne(args: seq<Argument>, x: Item, rest: seq<Item>)
    ensures Readable(args, [x] + rest) <==>
      (var k := Find(args, x.flag);
       && k < |args|
       && (match x.value
           case Some(v) => !Dashed(v)
           case None => !(args[k].required && args[k].value == "") && (rest != [] ==> Dashed(rest[0].flag)))
       && Readable(Touch(args, k, x.value), rest))
  {
    var items := [x] + rest;
    assert items[1..] == rest && items[0] == x;
    assert rest != [] ==> items[1] == rest[0];
  }

  lemma RenderStartsWithFlag(items: seq<Item>)
    requires items != []
    ensures Render(items) != [] && Render(items)[0] == items[0].flag
  {
  }

  /** A parse without error has read every token, as a declared flag or as a flag's value. */
  lemma {:induction false} ParseReadsEveryToken(args: seq<Argument>, tokens: seq<string>)
    requires ParseTokens(args, tokens).error.None?
    ensures Readable(args, Reading(args, tokens)) && Render(Reading(args, tokens)) == tokens
    decreases |tokens|
  {
    hide Readable, Render, Touch, Find;
    if tokens == [] {
      EmptyReads(args);
    } else {
      var k := Find(args, tokens[0]);
      if |tokens| > 1 && !Dashed(tokens[1]) {
        var one, args' := Item(tokens[0], Some(tokens[1])), Touch(args, k, Some(tokens[1]));
        ParseReadsEveryToken(args', tokens[2..]);
        ReadableOne(args, one, Reading(args', tokens[2..]));
        RenderOne(one, Reading(args', tokens[2..]));
        assert tokens == [tokens[0]] + [tokens[1]] + tokens[2..];
      } else {
        var one, args' := Item(tokens[0], None), Touch(args, k, None);
        var rest := Reading(args', tokens[1..]);
        ParseReadsEveryToken(args', tokens[1..]);
        ReadableOne(args, one, rest);
        RenderOne(one, rest);
        assert tokens == [tokens[0]] + [] + tokens[1..];
        if rest != [] {
          RenderStartsWithFlag(rest);
        }
      }
    }
  }

  lemma EmptyReads(args: seq<Argument>)
    ensures Readable(args, []) && Render([]) == []
  {
  }

  /** The token loop succeeds exactly on the renderings of readable items. */
  lemma ParsesExactlyRenderings(args: seq<Argument>, tokens: seq<string>)
    ensures ParseTokens(args, tokens).error.None? <==> exists items :: Readable(args, items) && Render(items) == tokens
  {
    if ParseTokens(args, tokens).error.None? {
      ParseReadsEveryToken(args, tokens);
    } else if items :| Readable(args, items) && Render(items) == tokens {
      ParseOfRender(args, items);
    }
  }

  // ----- what the look-ups return -----

  predicate SameNames(a: seq<Argument>, b: seq<Argument>) {
    |a| == |b| && forall k | 0 <= k < |a| ::
      a[k].longName == b[k].longName && a[k].shortName == b[k].shortName && a[k].required == b[k].required
  }

  lemma FindByNames(a: seq<Argument>, b: seq<Argument>, name: string)
    requires SameNames(a, b)
    ensures Find(a, name) == Find(b, name)
  {
    FindIsFirst(a, name, Find(b, name));
  }

  /** The last value the items give to argument k, or else what it had. */
  function LastValue(args: seq<Argument>, items: seq<Item>, k: nat): string
    requires k < |args|
  {
    if items == [] then args[k].value
    else
      var last := items[|items| - 1];
      if Find(args, last.flag) == k && last.value.Some? then last.value.value
      else LastValue(args, items[..|items| - 1], k)
  }

  predicate Mentioned(args: seq<Argument>, items: seq<Item>, k: nat) {
    exists i :: 0 <= i < |items| && Find(args, items[i].flag) == k
  }

  predicate Declared(args: seq<Argument>, items: seq<Item>) {
    forall i | 0 <= i < |items| :: Find(args, items[i].flag) < |args|
  }

  lemma {:induction false} ReadableIsDeclared(args: seq<Argument>, items: seq<Item>)
    requires Readable(args, items)
    ensures Declared(args, items)
    decreases |items|
  {
    if items != [] {
      var k := Find(args, items[0].flag);
      var args' := Touch(args, k, items[0].value);
      ReadableIsDeclared(args', items[1..]);
      forall i | 0 <= i < |items|
        ensures Find(args, items[i].flag) < |args|
      {
        FindByNames(args, args', items[i].flag);
        if i > 0 {
          assert items[i] == items[1..][i - 1];
        }
      }
    }
  }

  lemma {:induction false} NamesAfter(args: seq<Argument>, items: seq<Item>)
    ensures SameNames(args, ApplyAll(args, items))
    decreases |items|
  {
    if items != [] && Find(args, items[0].flag) < |args| {
      NamesAfter(Touch(args, Find(args, items[0].flag), items[0].value), items[1..]);
    }
  }

  lemma DeclaredAfterTouch(args: seq<Argument>, items: seq<Item>)
    requires items != [] && Declared(args, items)
    ensures Declared(Touch(args, Find(args, items[0].flag), items[0].value), items[1..])
  {
    var args' := Touch(args, Find(args, items[0].flag), items[0].value);
    var rest := items[1..];
    forall i | 0 <= i < |rest|
      ensures Find(args', rest[i].flag) < |args'|
    {
      FindByNames(args, args', rest[i].flag);
      assert rest[i] == items[i + 1];
    }
  }

  lemma {:induction false} ApplyAppend(args: seq<Argument>, items: seq<Item>, x: Item)
    requires Declared(args, items)
    ensures ApplyAll(args, items + [x]) == ApplyAll(ApplyAll(args, items), [x])
    decreases |items|
  {
    if items == [] {
      assert items + [x] == [x];
    } else {
      var all := items + [x];
      assert all[0] == items[0] && all[1..] == items[1..] + [x];
      DeclaredAfterTouch(args, items);
      ApplyAppend(Touch(args, Find(args, items[0].flag), items[0].value), items[1..], x);
    }
  }

  lemma ApplyLast(args: seq<Argument>, items: seq<Item>)
    requires items != [] && Declared(args, items)
    ensures var init, last := items[..|items| - 1], items[|items| - 1];
      && SameNames(args, ApplyAll(args, init))
      && Find(args, last.flag) < |args|
      && ApplyAll(args, items) == Touch(ApplyAll(args, init), Find(args, last.flag), last.value)
  {
    var init, last := items[..|items| - 1], items[|items| - 1];
    assert items == init + [last];
    ApplyAppend(args, init, last);
    NamesAfter(args, init);
    FindByNames(args, ApplyAll(args, init), last.flag);
    assert [last][1..] == [];
  }

  /** After the items, every argument has its last value, and is marked if it was mentioned. */
  lemma {:induction false} ApplyAllMeaning(args: seq<Argument>, items: seq<Item>, k: nat)
    requires Declared(args, items) && k < |args|
    ensures SameNames(args, ApplyAll(args, items))
    ensures ApplyAll(args, items)[k].value == LastValue(args, items, k)
    ensures ApplyAll(args, items)[k].found <==> args[k].found || Mentioned(args, items, k)
    decreases |items|
  {
    if items != [] {
      var init, last := items[..|items| - 1], items[|items| - 1];
      ApplyAllMeaning(args, init, k);
      ApplyLast(args, items);
      MentionedLast(args, items, k);
    }
  }

  lemma MentionedLast(args: seq<Argument>, items: seq<Item>, k: nat)
    requires items != []
    ensures Mentioned(args, items, k)
            <==> Mentioned(args, items[..|items| - 1], k) || Find(args, items[|items| - 1].flag) == k
  {
    var init := items[..|items| - 1];
    if Mentioned(args, init, k) {
      var i :| 0 <= i < |init| && Find(args, init[i].flag) == k;
      assert items[i] == init[i];
    }
    if Mentioned(args, items, k) {
      var i :| 0 <= i < |items| && Find(args, items[i].flag) == k;
      if i < |init| {
        assert init[i] == items[i];
      }
    }
  }

  lemma {:induction false} FirstMissingMeaning(args: seq<Argument>)
    ensures FirstMissing(args).None? <==> forall k | 0 <= k < |args| :: args[k].required ==> args[k].found
    ensures FirstMissing(args).Some? ==>
              exists k :: && 0 <= k < |args| && args[k].required && !args[k].found
                          && FirstMissing(args) == Some(Missing(args[k].longName))
                          && forall j | 0 <= j < k :: args[j].required ==> args[j].found
  {
    if args != [] {
      FirstMissingMeaning(args[1..]);
      assert forall k | 0 < k < |args| :: args[k] == args[1..][k - 1];
    }
  }

  lemma {:induction false} AppTokensOf(prog: string, eal: seq<string>, rest: seq<string>)
    requires "--" !in eal
    ensures AppTokens([prog] + eal + ["--"] + rest) == rest
    decreases |eal|
  {
    var argv := [prog] + eal + ["--"] + rest;
    if eal == [] {
      assert argv[1] == "--" && argv[2..] == rest;
    } else {
      assert argv[1] == eal[0];
      AppTokensOf(eal[0], eal[1..], rest);
      assert argv[1..] == [eal[0]] + eal[1..] + ["--"] + rest;
    }
  }

  /** Without a separator there is nothing for the application. */
  lemma {:induction false} NoSeparatorNoTokens(argv: seq<string>)
    requires forall i | 1 <= i < |argv| :: argv[i] != "--"
    ensures AppTokens(argv) == []
  {
    if |argv| > 1 {
      assert forall i | 1 <= i < |argv[1..]| :: argv[1..][i] == argv[i + 1];
      NoSeparatorNoTokens(argv[1..]);
    }
  }

  /** No required argument is left out. */
  predicate Complete(args: seq<Argument>, items: seq<Item>) {
    forall k | 0 <= k < |args| :: args[k].required ==> args[k].found || Mentioned(args, items, k)
  }

  /**
   The round trip: a command line rendered from readable items after the first "--" parses
   without error exactly when every required argument occurs; afterwards looking an argument up
   by either name gives the last value it was given, or else its default.
   */
  lemma RoundTrip(args: seq<Argument>, prog: string, eal: seq<string>, items: seq<Item>, name: string)
    requires Readable(args, items) && "--" !in eal
    ensures var o := Parse(args, [prog] + eal + ["--"] + Render(items));
      && (o.error.None? <==> Complete(args, items))
      && (Find(args, name) < |args| ==> GetString(o.args, name) == LastValue(args, items, Find(args, name)))
      && (Find(args, name) == |args| ==> GetString(o.args, name) == "")
  {
    hide Readable, ApplyAll, ParseTokens, AppTokens, FirstMissing, Render, LastValue, Mentioned;
    AppTokensOf(prog, eal, Render(items));
    ParseOfRender(args, items);
    ReadableIsDeclared(args, items);
    var after := ApplyAll(args, items);
    FirstMissingMeaning(after);
    NamesAfter(args, items);
    forall k | 0 <= k < |args|
      ensures after[k].value == LastValue(args, items, k)
      ensures after[k].found <==> args[k].found || Mentioned(args, items, k)
    {
      ApplyAllMeaning(args, items, k);
    }
    FindByNames(args, after, name);
  }

  /** Every flag is declared and comes with a value that does not look like a flag. */
  predicate Plain(args: seq<Argument>, items: seq<Item>) {
    && Declared(args, items)
    && forall i | 0 <= i < |items| ::
         items[i].value.Some? && (items[i].value.value == "" || items[i].value.value[0] != '-')
  }

  lemma {:induction false} PlainIsReadable(args: seq<Argument>, items: seq<Item>)
    requires Plain(args, items)
    ensures Readable(args, items)
    decreases |items|
  {
    if items != [] {
      DeclaredAfterTouch(args, items);
      assert forall i | 0 <= i < |items[1..]| :: items[1..][i] == items[i + 1];
      PlainIsReadable(Touch(args, Find(args, items[0].flag), items[0].value), items[1..]);
    }
  }

  /** The round trip for flags that each come with a value. */
  lemma PlainRoundTrip(args: seq<Argument>, prog: string, eal: seq<string>, items: seq<Item>, name: string)
    requires Plain(args, items) && "--" !in eal
    ensures var o := Parse(args, [prog] + eal + ["--"] + Render(items));
      && (o.error.None? <==> Complete(args, items))
      && (Find(args, name) < |args| ==> GetString(o.args, name) == LastValue(args, items, Find(args, name)))
      && (Find(args, name) == |args| ==> GetString(o.args, name) == "")
  {
    hide Parse, Render, Complete, LastValue, Readable;
    PlainIsReadable(args, items);
    RoundTrip(args, prog, eal, items, name);
  }

  /** A token that starts with a dash is never taken as a value: undeclared, it fails. */
  lemma DashIsNoValue(args: seq<Argument>, flag: string, token: string, rest: seq<string>)
    requires Find(args, flag) < |args| && token != "" && token[0] == '-' && Find(args, token) == |args|
    requires var a := args[Find(args, flag)]; !(a.required && a.value == "")
    ensures ParseTokens(args, [flag, token] + rest).error == Some(Unknown(token))
  {
    var k := Find(args, flag);
    var tokens := [flag, token] + rest;
    assert tokens[1..] == [token] + rest;
    var args' := Touch(args, k, None);
    FindByNames(args, args', token);
    assert ([token] + rest)[0] == token;
  }

  /** A required flag that has no value yet must be given one: at the end of the line it fails. */
  lemma BareFlagExactly(args: seq<Argument>, flag: string)
    requires Find(args, flag) < |args|
    ensures var a := args[Find(args, flag)];
      ParseTokens(args, [flag]).error == if a.required && a.value == "" then Some(RequiresValue(flag)) else None
  {
    assert [flag][1..] == [];
  }

  lemma {:induction false} ParseValue(args: seq<Argument>, flag: string, value: string, rest: seq<string>)
    requires Find(args, flag) < |args| && !Dashed(value)
    ensures ParseTokens(args, [flag, value] + rest) == ParseTokens(Touch(args, Find(args, flag), Some(value)), rest)
  {
    hide Touch, Find;
    var tokens := [flag, value] + rest;
    assert tokens[0] == flag && tokens[1] == value && tokens[2..] == rest;
  }

  lemma {:induction false} ParseUnknown(args: seq<Argument>, token: string, rest: seq<string>)
    requires Find(args, token) == |args|
    ensures ParseTokens(args, [token] + rest) == Outcome(args, Some(Unknown(token)))
  {
  }

  lemma {:induction false} PlainTail(args: seq<Argument>, items: seq<Item>)
    requires Plain(args, items) && items != []
    ensures Find(args, items[0].flag) < |args| && items[0].value.Some? && !Dashed(items[0].value.value)
    ensures var args' := Touch(args, Find(args, items[0].flag), items[0].value);
      Plain(args', items[1..]) && ApplyAll(args, items) == ApplyAll(args', items[1..])
  {
    DeclaredAfterTouch(args, items);
    hide Touch, Find;
    assert forall i | 0 <= i < |items[1..]| :: items[1..][i] == items[i + 1];
  }

  /** After declared flags, each with a value, the first token that is not declared ends the parse. */
  lemma {:induction false} UnknownTokenFails(args: seq<Argument>, items: seq<Item>, token: string, rest: seq<string>)
    requires Plain(args, items) && Find(args, token) == |args|
    ensures ParseTokens(args, Render(items) + [token] + rest) == Outcome(ApplyAll(args, items), Some(Unknown(token)))
    decreases |items|
  {
    if items == [] {
      assert Render(items) + [token] + rest == [token] + rest;
      ParseUnknown(args, token, rest);
    } else {
      var x, more := items[0], items[1..];
      var args' := Touch(args, Find(args, x.flag), x.value);
      PlainTail(args, items);
      FindByNames(args, args', token);
      hide ParseTokens, Find, Plain, ApplyAll, Render, Touch;
      RenderPlain(x, more, token, rest);
      assert items == [x] + more;
      ParseValue(args, x.flag, x.value.value, Render(more) + [token] + rest);
      UnknownTokenFails(args', more, token, rest);
    }
  }

  lemma {:induction false} RenderPlain(x: Item, more: seq<Item>, token: string, rest: seq<string>)
    requires x.value.Some?
    ensures Render([x] + more) + [token] + rest == [x.flag, x.value.value] + (Render(more) + [token] + rest)
  {
    RenderOne(x, more);
    hide Render;
  }

  /** The arguments the configuration manager declares. */
  function ManagerArguments(): seq<Argument> {
    [Argument("--help", "-h", "Show this help menu", false, false, "false"),
     Argument("--portmask", "-p", "Hex bitmask of ports", true, false, "0x0"),
     Argument("--mode", "-m", "polling | interrupt", false, false, "polling"),
     Argument("--burst", "-b", "Packet burst size", false, false, "32")]
  }

  /** A value taken from the command line never looks like a flag. */
  lemma {:induction false} GivenValuesAreUndashed(args: seq<Argument>, items: seq<Item>, k: nat)
    requires Declared(args, items) && k < |args|
    requires forall i | 0 <= i < |items| :: items[i].value.Some? ==> !Dashed(items[i].value.value)
    ensures LastValue(args, items, k) == args[k].value || !Dashed(LastValue(args, items, k))
    decreases |items|
  {
    if items != [] {
      GivenValuesAreUndashed(args, items[..|items| - 1], k);
    }
  }

  lemma {:induction false} ReadableValues(args: seq<Argument>, items: seq<Item>)
    requires Readable(args, items)
    ensures forall i | 0 <= i < |items| :: items[i].value.Some? ==> !Dashed(items[i].value.value)
    decreases |items|
  {
    if items != [] {
      ReadableValues(Touch(args, Find(args, items[0].flag), items[0].value), items[1..]);
      assert forall i | 0 < i < |items| :: items[i] == items[1..][i - 1];
    }
  }

  /**
   The help test of the configuration manager: the bare flag does not turn it on; only a value
   that reads as true does.
   */
  lemma HelpNeedsAValue(prog: string, eal: seq<string>, items: seq<Item>)
    requires Readable(ManagerArguments(), items) && "--" !in eal
    ensures var o := Parse(ManagerArguments(), [prog] + eal + ["--"] + Render(items));
      GetBool(o.args, "--help") <==> LastValue(ManagerArguments(), items, 0) in {"true", "1", "yes"}
  {
    var args := ManagerArguments();
    hide Readable, Render, LastValue, Parse;
    RoundTrip(args, prog, eal, items, "--help");
    ReadableIsDeclared(args, items);
    ReadableValues(args, items);
    GivenValuesAreUndashed(args, items, 0);
    assert Named(args[0], "--help");
    FindIsFirst(args, "--help", 0);
    assert Dashed("-h") && Dashed("--help");
    assert args[0].value == "false";
    assert "false" != "-h" by { assert |"false"| != |"-h"|; }
    assert "false" != "--help" by { assert |"false"| != |"--help"|; }
  }

  /** At an input: a command line that asks for help parses, and help stays off. */
  lemma BareHelpStaysOff(prog: string)
    ensures var o := Parse(ManagerArguments(), [prog, "--", "--help", "-p", "0x1"]);
      o.error.None? && !GetBool(o.args, "--help")
  {
    var args := ManagerArguments();
    var bare, mask := Item("--help", None), Item("-p", Some("0x1"));
    var items := [bare, mask];
    assert Named(args[0], "--help") && Named(args[1], "-p");
    FindIsFirst(args, "--help", 0);
    assert "--help" != "-p" && "-h" != "-p" by { assert "--help"[1] != "-p"[1] && "-h"[1] != "-p"[1]; }
    FindIsFirst(args, "-p", 1);
    var args' := Touch(args, 0, None);
    FindByNames(args, args', "-p");
    assert items[1..] == [mask] && [mask][1..] == [];
    assert Readable(args', [mask]) && Readable(args, items);
    RenderOne(mask, []);
    RenderOne(bare, [mask]);
    assert items == [bare] + [mask] && [mask] == [mask] + [];
    assert Render([]) == [];
    assert Render(items) == ["--help", "-p", "0x1"];
    assert [prog] + [] + ["--"] + Render(items) == [prog, "--", "--help", "-p", "0x1"];
    RoundTrip(args, prog, [], items, "--help");
    assert Find(args, items[1].flag) == 1;
    assert Complete(args, items);
    HelpNeedsAValue(prog, [], items);
    assert items[..1] == [bare] && [bare][..0] == [];
    assert LastValue(args, items, 0) == LastValue(args, [bare], 0) == LastValue(args, [], 0) == "false";
  }

  // ----- the parser object -----

  class CmdlineParser {
    var args: seq<Argument>

    constructor ()
      ensures args == []
    {
      args := [];
    }

    method AddArgument(longName: string, shortName: string, description: string, required: bool, default: string)
      modifies this
      ensures args == old(args) + [Argument(longName, shortName, description, required, false, default)]
    {
      args := args + [Argument(longName, shortName, description, required, false, default)];
    }

    /** The match loop over the declared arguments. */
    method Lookup(name: string) returns (k: nat)
      ensures k == Find(args, name)
    {
      k := 0;
      while k < |args|
        invariant 0 <= k <= |args|
        invariant forall j | 0 <= j < k :: !Named(args[j], name)
      {
        if Named(args[k], name) {
          break;
        }
        k := k + 1;
      }
      FindIsFirst(args, name, k);
    }

    /** The index of the first application token. */
    method AppStart(argv: seq<string>) returns (start: nat)
      ensures start <= |argv| && argv[start..] == AppTokens(argv)
    {
      start := |argv|;
      var i := 1;
      AppTokensFrom(argv, 0);
      while i < |argv|
        invariant 1 <= i && (|argv| > 0 ==> i <= |argv| && AppTokens(argv) == AppTokens(argv[i - 1..]))
        invariant |argv| == 0 ==> AppTokens(argv) == []
      {
        AppTokensFrom(argv, i - 1);
        if argv[i] == "--" {
          return i + 1;
        }
        i := i + 1;
      }
    }

    /** parse: the token loop in place, then the check for required arguments. */
    method ParseArgs(argv: seq<string>) returns (error: Option<Error>)
      modifies this
      ensures Parse(old(args), argv) == Outcome(args, error)
    {
      var i := AppStart(argv);
      ghost var whole := ParseTokens(args, AppTokens(argv));
      hide ParseTokens, AppTokens, FirstMissing, Touch, Find;
      while i < |argv|
        invariant i <= |argv| && whole == ParseTokens(args, argv[i..])
      {
        var token := argv[i];
        ParseOne(args, argv, i);
        var k := Lookup(token);
        if k == |args| {
          return Some(Unknown(token));
        }
        if i + 1 < |argv| && !Dashed(argv[i + 1]) {
          i := i + 1;
          args := Touch(args, k, Some(argv[i]));
        } else {
          var missing := args[k].required && args[k].value == "";
          args := Touch(args, k, None);
          if missing {
            return Some(RequiresValue(token));
          }
        }
        i := i + 1;
      }
      NothingLeft(args, argv, i);
      error := RequiredCheck();
    }

    method RequiredCheck() returns (error: Option<Error>)
      ensures error == FirstMissing(args)
    {
      var k := 0;
      while k < |args|
        invariant 0 <= k <= |args| && FirstMissing(args) == FirstMissing(args[k..])
      {
        assert args[k..][0] == args[k] && args[k..][1..] == args[k + 1..];
        if args[k].required && !args[k].found {
          return Some(Missing(args[k].longName));
        }
        k := k + 1;
      }
      error := None;
    }
  }

  /** One turn of the token loop at index i. */
  lemma ParseOne(args: seq<Argument>, argv: seq<string>, i: nat)
    requires i < |argv|
    ensures var k := Find(args, argv[i]);
      ParseTokens(args, argv[i..]) ==
        if k == |args| then Outcome(args, Some(Unknown(argv[i])))
        else if i + 1 < |argv| && !Dashed(argv[i + 1]) then
          ParseTokens(Touch(args, k, Some(argv[i + 1])), argv[i + 2..])
        else if args[k].required && args[k].value == "" then
          Outcome(Touch(args, k, None), Some(RequiresValue(argv[i])))
        else ParseTokens(Touch(args, k, None), argv[i + 1..])
  {
    hide Touch, Find;
    var tokens := argv[i..];
    assert tokens[0] == argv[i] && tokens[1..] == argv[i + 1..];
    if i + 1 < |argv| {
      assert tokens[1] == argv[i + 1] && tokens[2..] == argv[i + 2..];
    }
  }

  lemma NothingLeft(args: seq<Argument>, argv: seq<string>, i: nat)
    requires i == |argv|
    ensures ParseTokens(args, argv[i..]) == Outcome(args, None)
  {
  }

  lemma FindIsFirst(args: seq<Argument>, name: string, k: nat)
    requires k <= |args| && (k < |args| ==> Named(args[k], name))
    requires forall j | 0 <= j < k :: !Named(args[j], name)
    ensures k == Find(args, name)
  {
  }

  lemma AppTokensFrom(argv: seq<string>, i: nat)
    requires i <= |argv|
    ensures i + 1 >= |argv| ==> AppTokens(argv[i..]) == []
    ensures i + 1 < |argv| ==>
              AppTokens(argv[i..]) == if argv[i + 1] == "--" then argv[i + 2..] else AppTokens(argv[i + 1..])
  {
    var rest := argv[i..];
    if i + 1 < |argv| {
      assert rest[1] == argv[i + 1] && rest[2..] == argv[i + 2..] && rest[1..] == argv[i + 1..];
    }
  }
}
