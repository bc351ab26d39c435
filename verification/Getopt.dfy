// compat/getopt/getopt_long.c: getopt_long, which moves what is no option behind
// what is, a call at a time.

module Getopt {
  import opened Wrappers
  import X = Exchange

  datatype Arity = NoArgument | RequiredArgument | OptionalArgument

  datatype LongOption = LongOption(name: string, arity: Arity)

  // The option letters, and the long options if the caller passed a table.
  datatype Config = Config(options: string, long: Option<seq<LongOption>>, longOnly: bool)

  datatype Answer =
    | Done                                    // -1
    | Letter(c: char, arg: Option<string>)
    | Long(index: nat, arg: Option<string>)
    | Unknown
    | Ambiguous
    | Unwanted                                // an argument nobody asked for
    | Missing                                 // one that is not there

  // What one call makes of an option: the answer, what is left of the word it
  // is in, and how many arguments it is done with.
  datatype Step = Step(answer: Answer, place: string, used: nat)

  // ----------------------------------------------------------- long options

  predicate Prefix(word: string, name: string) {
    |word| <= |name| && name[..|word|] == word
  }

  const NOBODY := -1
  const SEVERAL := -2

  // The search of parse_long_options from entry `i` on, `best` being what it
  // has so far.
  function FindLong(long: seq<LongOption>, word: string, shortToo: bool, i: nat, best: int): (r: int)
    requires i <= |long| && -1 <= best < |long|
    ensures -2 <= r < |long|
    decreases |long| - i
  {
    if i == |long| then best
    else if !Prefix(word, long[i].name) then FindLong(long, word, shortToo, i + 1, best)
    else if |long[i].name| == |word| then i
    else if shortToo && |word| == 1 then FindLong(long, word, shortToo, i + 1, best)
    else if best == NOBODY then FindLong(long, word, shortToo, i + 1, i)
    else SEVERAL
  }

  method SearchLong(long: seq<LongOption>, word: string, shortToo: bool) returns (best: int)
    ensures best == FindLong(long, word, shortToo, 0, NOBODY)
  {
    best := NOBODY;
    var i := 0;
    while i < |long|
      invariant i <= |long| && -1 <= best < |long|
      invariant FindLong(long, word, shortToo, i, best) == FindLong(long, word, shortToo, 0, NOBODY)
    {
      if Prefix(word, long[i].name) {
        if |long[i].name| == |word| {
          best := i;
          break;
        }
        if !(shortToo && |word| == 1) {
          if best == NOBODY {
            best := i;
          } else {
            best := SEVERAL;
            break;
          }
        }
      }
      i := i + 1;
    }
  }

  // How many entries before `n` the word abbreviates without being their name.
  function Abbreviated(long: seq<LongOption>, word: string, n: nat): nat
    requires n <= |long|
  {
    if n == 0 then 0
    else Abbreviated(long, word, n - 1) + if Prefix(word, long[n - 1].name) && long[n - 1].name != word then 1 else 0
  }

  // The exact name of an option finds it if and only if the word abbreviates at
  // most one of the options listed before it -- from the second on, the search has
  // given up -- or is one letter that may stand for itself.
  lemma ExactNameFound(long: seq<LongOption>, word: string, shortToo: bool, n: nat)
    requires n < |long| && long[n].name == word && forall i :: 0 <= i < n ==> long[i].name != word
    ensures FindLong(long, word, shortToo, 0, NOBODY) == n <==>
      (shortToo && |word| == 1) || Abbreviated(long, word, n) <= 1
  {
    FoundFrom(long, word, shortToo, 0, NOBODY, n);
  }

  // "--ver" is ambiguous where verbose and version come before it.
  lemma ExactNameMissed()
    ensures var long := [LongOption("verbose", NoArgument), LongOption("version", NoArgument), LongOption("ver", NoArgument)];
            FindLong(long, "ver", false, 0, NOBODY) == SEVERAL
  {
    var long := [LongOption("verbose", NoArgument), LongOption("version", NoArgument), LongOption("ver", NoArgument)];
    assert long[0].name[..3] == "ver" && long[1].name[..3] == "ver";
    assert FindLong(long, "ver", false, 1, 0) == SEVERAL;
  }

  lemma ProperPrefix(word: string, name: string)
    requires Prefix(word, name) && name != word
    ensures |name| > |word|
  {
    assert name[..|name|] == name;
  }

  lemma {:induction false} FoundFrom(long: seq<LongOption>, word: string, shortToo: bool, i: nat, best: int, n: nat)
    requires i <= n < |long| && long[n].name == word && forall j :: 0 <= j < n ==> long[j].name != word
    requires -1 <= best < i
    requires if shortToo && |word| == 1 then best == NOBODY
             else (best == NOBODY <==> Abbreviated(long, word, i) == 0) && Abbreviated(long, word, i) <= 1
    ensures FindLong(long, word, shortToo, i, best) == n <==>
      (shortToo && |word| == 1) || Abbreviated(long, word, n) <= 1
    decreases n - i
  {
    if i < n {
      MoreAbbreviated(long, word, i + 1, n);
      if Prefix(word, long[i].name) {
        ProperPrefix(word, long[i].name);
        if shortToo && |word| == 1 { FoundFrom(long, word, shortToo, i + 1, best, n); }
        else if best == NOBODY { FoundFrom(long, word, shortToo, i + 1, i, n); }
      } else {
        FoundFrom(long, word, shortToo, i + 1, best, n);
      }
    }
  }

  lemma {:induction false} MoreAbbreviated(long: seq<LongOption>, word: string, i: nat, n: nat)
    requires i <= n <= |long|
    ensures Abbreviated(long, word, i) <= Abbreviated(long, word, n)
  {
    if i < n { MoreAbbreviated(long, word, i, n - 1); }
  }

  // strchr
  function Find(s: string, c: char): (k: nat)
    ensures k <= |s| && (k < |s| ==> s[k] == c) && (k == |s| <==> c !in s)
  {
    if s == "" || s[0] == c then 0 else 1 + Find(s[1..], c)
  }

  function CharAt(s: string, k: nat): char {
    if k < |s| then s[k] else '\0'
  }

  // parse_long_options on `place`; None where the word may be letters instead.
  function ParseLong(long: seq<LongOption>, place: string, rest: seq<string>, shortToo: bool): (r: Option<Step>)
    requires rest != []
    ensures r.None? ==> shortToo
    ensures r.Some? ==> r.value.place == "" && 1 <= r.value.used <= |rest| && !r.value.answer.Done?
  {
    var eq := Find(place, '=');
    var word := place[..eq];
    var best := FindLong(long, word, shortToo, 0, NOBODY);
    if best == SEVERAL then Some(Step(Ambiguous, "", 1))
    else if best == NOBODY then if shortToo then None else Some(Step(Unknown, "", 1))
    else if long[best].arity.NoArgument? then
      Some(Step(if eq < |place| then Unwanted else Long(best, None), "", 1))
    else if eq < |place| then Some(Step(Long(best, Some(place[eq + 1..])), "", 1))
    else if long[best].arity.OptionalArgument? then Some(Step(Long(best, None), "", 1))
    else if |rest| == 1 then Some(Step(Missing, "", 1))
    else Some(Step(Long(best, Some(rest[1])), "", 2))
  }

  method LongOptions(long: seq<LongOption>, place: string, rest: seq<string>, shortToo: bool) returns (r: Option<Step>)
    requires rest != []
    ensures r == ParseLong(long, place, rest, shortToo)
  {
    var eq := Find(place, '=');
    var best := SearchLong(long, place[..eq], shortToo);
    if best == SEVERAL {
      return Some(Step(Ambiguous, "", 1));
    }
    if best == NOBODY {
      return if shortToo then None else Some(Step(Unknown, "", 1));
    }
    if long[best].arity.NoArgument? && eq < |place| {
      return Some(Step(Unwanted, "", 1));
    }
    var arg, used := None, 1;
    if !long[best].arity.NoArgument? {
      if eq < |place| {
        arg := Some(place[eq + 1..]);
      } else if long[best].arity.RequiredArgument? {
        if |rest| == 1 {
          return Some(Step(Missing, "", 1));
        }
        arg, used := Some(rest[1]), 2;
      }
    }
    return Some(Step(Long(best, arg), "", used));
  }

  // ---------------------------------------------------------------- letters

  function ParseLetter(cfg: Config, place: string, rest: seq<string>): (r: Step)
    requires rest != [] && place != ""
    ensures r.used <= |rest| && |r.place| < |place|
    ensures r.place != "" ==> r.used == 0
    ensures r.place == "" ==> r.used >= 1 || (r.answer.Done? && place == "-" && '-' !in cfg.options)
    ensures r.answer.Done? ==> place == "-"
  {
    var c, p := place[0], place[1..];
    var k := Find(cfg.options, c);
    var done := if p == "" then 1 else 0;
    if c == ':' || (c == '-' && p != "") || k == |cfg.options| then
      if c == '-' && p == "" then Step(Done, "", 0) else Step(Unknown, p, done)
    else if cfg.long.Some? && c == 'W' && CharAt(cfg.options, k + 1) == ';' then
      if p != "" then ParseLong(cfg.long.value, p, rest, false).value
      else if |rest| == 1 then Step(Missing, "", 1)
      else
        var r := ParseLong(cfg.long.value, rest[1], rest[1..], false).value;
        Step(r.answer, "", 1 + r.used)
    else if CharAt(cfg.options, k + 1) != ':' then Step(Letter(c, None), p, done)
    else if p != "" then Step(Letter(c, Some(p)), "", 1)
    else if CharAt(cfg.options, k + 2) == ':' then Step(Letter(c, None), "", 1)
    else if |rest| == 1 then Step(Missing, "", 1)
    else Step(Letter(c, Some(rest[1])), "", 2)
  }

  // One option from `place`, within the first of the arguments `rest`.
  function Parse(cfg: Config, place: string, rest: seq<string>): (r: Step)
    requires rest != [] && place != ""
    ensures r.used <= |rest| && |r.place| < |place|
    ensures r.place != "" ==> r.used == 0
    ensures r.place == "" ==> r.used >= 1 || r.answer.Done?
    ensures r.answer.Done? ==> place == "-" && (cfg.long.None? || |rest[0]| == 1)
  {
    var tried :=
      if cfg.long.None? || |place| == |rest[0]| || !(place[0] == '-' || cfg.longOnly) then None
      else if place[0] == '-' then ParseLong(cfg.long.value, place[1..], rest, false)
      else ParseLong(cfg.long.value, place, rest, place[0] != ':' && place[0] in cfg.options);
    if tried.Some? then tried.value else ParseLetter(cfg, place, rest)
  }

  method ParseOption(cfg: Config, place: string, rest: seq<string>) returns (r: Step)
    requires rest != [] && place != ""
    ensures r == Parse(cfg, place, rest)
  {
    if cfg.long.Some? && |place| != |rest[0]| && (place[0] == '-' || cfg.longOnly) {
      var from, shortToo := place, false;
      if place[0] == '-' {
        from := place[1..];
      } else if place[0] != ':' && place[0] in cfg.options {
        shortToo := true;
      }
      var tried := LongOptions(cfg.long.value, from, rest, shortToo);
      if tried.Some? {
        return tried.value;
      }
    }
    return ParseLetter(cfg, place, rest);
  }

  // --------------------------------------------------- the whole of a vector

  predicate NonOption(cfg: Config, arg: string) {
    arg == "" || arg[0] != '-' || (arg == "-" && '-' !in cfg.options)
  }

  // What getopt_internal starts on, of an argument that is an option.
  function Opening(arg: string): (place: string)
    requires arg != ""
    ensures place != "" && |place| <= |arg|
  {
    if |arg| > 1 then arg[1..] else arg
  }

  // Somewhere in the first of the arguments, which is an option.
  predicate Inside(cfg: Config, place: string, rest: seq<string>) {
    && rest != [] && place != "" && |place| <= |rest[0]|
    && (place == "-" ==> |rest[0]| > 1 || '-' in cfg.options)
  }

  // Whether a call answers -1 before this word is through.
  predicate Stops(cfg: Config, place: string, rest: seq<string>)
    requires Inside(cfg, place, rest)
    decreases |place|
  {
    var r := Parse(cfg, place, rest);
    r.answer.Done? || (r.place != "" && Stops(cfg, r.place, rest))
  }

  // The arguments that go with the letters from `place` on.
  function Cluster(cfg: Config, place: string, rest: seq<string>): (n: nat)
    requires Inside(cfg, place, rest) && !Stops(cfg, place, rest)
    ensures 1 <= n <= |rest|
    decreases |place|
  {
    var r := Parse(cfg, place, rest);
    if r.place == "" then r.used else Cluster(cfg, r.place, rest)
  }

  // The first of the arguments is an option with a word that is not got through.
  predicate Halts(cfg: Config, args: seq<string>) {
    args != [] && !NonOption(cfg, args[0]) && args[0] != "--" && Stops(cfg, Opening(args[0]), args)
  }

  function Taken(cfg: Config, args: seq<string>): (n: nat)
    requires args != [] && !NonOption(cfg, args[0]) && args[0] != "--" && !Halts(cfg, args)
    ensures 1 <= n <= |args|
  {
    Cluster(cfg, Opening(args[0]), args)
  }

  // The arguments a run does not get through, from the word it stops in.
  function Halt(cfg: Config, args: seq<string>): Option<seq<string>>
    decreases |args|
  {
    if args == [] then None
    else if NonOption(cfg, args[0]) then Halt(cfg, args[1..])
    else if args[0] == "--" then None
    else if Halts(cfg, args) then Some(args)
    else Halt(cfg, args[Taken(cfg, args)..])
  }

  // From the first option on.
  function Head(cfg: Config, args: seq<string>): (r: seq<string>)
    ensures |r| <= |args| && (r != [] ==> !NonOption(cfg, r[0]))
  {
    if args != [] && NonOption(cfg, args[0]) then Head(cfg, args[1..]) else args
  }

  datatype Split = Split(options: seq<string>, others: seq<string>)

  // The arguments told apart: options with what they take, up to and including
  // "--" or up to where a run halts, and all others.
  function Apart(cfg: Config, args: seq<string>): (r: Split)
    ensures |r.options| + |r.others| == |args|
    decreases |args|
  {
    if args == [] then Split([], [])
    else if NonOption(cfg, args[0]) then
      var r := Apart(cfg, args[1..]);
      Split(r.options, [args[0]] + r.others)
    else if args[0] == "--" then Split([args[0]], args[1..])
    else if Halts(cfg, args) then Split([], args)
    else
      var n := Taken(cfg, args);
      var r := Apart(cfg, args[n..]);
      Split(args[..n] + r.options, r.others)
  }

  // Those of the arguments that are marked so.
  function Marked(args: seq<string>, mark: seq<bool>, which: bool): seq<string>
    requires |args| == |mark|
  {
    if args == [] then []
    else (if mark[0] == which then [args[0]] else []) + Marked(args[1..], mark[1..], which)
  }

  // A run of these arguments sorts them: it does not halt, or has passed none over
  // when it does.
  predicate EndsSorted(cfg: Config, args: seq<string>) {
    Halt(cfg, args).None? || Halt(cfg, args).value == Apart(cfg, args).others
  }

  lemma {:induction false} MarkedConcat(a: seq<string>, b: seq<string>, m: seq<bool>, n: seq<bool>, which: bool)
    requires |a| == |m| && |b| == |n|
    ensures Marked(a + b, m + n, which) == Marked(a, m, which) + Marked(b, n, which)
  {
    if a == [] {
      assert a + b == b && m + n == n;
    } else {
      assert (a + b)[1..] == a[1..] + b && (m + n)[1..] == m[1..] + n;
      MarkedConcat(a[1..], b, m[1..], n, which);
    }
  }

  lemma {:induction false} MarkedAll(a: seq<string>, m: seq<bool>, which: bool)
    requires |a| == |m| && forall i :: 0 <= i < |m| ==> m[i] == which
    ensures Marked(a, m, which) == a && Marked(a, m, !which) == []
  {
    if a != [] {
      MarkedAll(a[1..], m[1..], which);
      assert a == [a[0]] + a[1..];
    }
  }

  // Up to a marked "--", or to where a run halts, what is not marked is no option;
  // behind it, nothing is marked.
  ghost predicate Marks(cfg: Config, args: seq<string>, mark: seq<bool>, end: nat) {
    && |mark| == |args| && end <= |args|
    && (end < |args| ==> (0 < end && args[end - 1] == "--" && mark[end - 1]) || Halts(cfg, args[end..]))
    && (forall i :: 0 <= i < end && !mark[i] ==> NonOption(cfg, args[i]))
    && (forall i :: end <= i < |args| ==> !mark[i])
  }

  lemma MarksAfter(cfg: Config, args: seq<string>, n: nat, t: seq<bool>, m: seq<bool>, e: nat)
    requires 1 <= n == |t| <= |args| && Marks(cfg, args[n..], m, e)
    requires forall i :: 0 <= i < n && !t[i] ==> NonOption(cfg, args[i])
    ensures Marks(cfg, args, t + m, n + e)
  {
    forall i | 0 <= i < |args| ensures (t + m)[i] == if i < n then t[i] else m[i - n] {
    }
    forall i | n <= i < |args| ensures args[i] == args[n..][i - n] {
    }
    assert args[n..][e..] == args[n + e..];
  }

  lemma MarkedAfter(args: seq<string>, n: nat, t: seq<bool>, m: seq<bool>, which: bool)
    requires n == |t| <= |args| && |m| == |args| - n
    ensures Marked(args, t + m, which) == Marked(args[..n], t, which) + Marked(args[n..], m, which)
  {
    MarkedConcat(args[..n], args[n..], t, m, which);
    assert args == args[..n] + args[n..];
  }

  lemma ApartAtEnd(cfg: Config, args: seq<string>)
    requires args != [] && args[0] == "--"
    ensures Apart(cfg, args) == Split(["--"], args[1..]) && Halt(cfg, args).None? && !NonOption(cfg, args[0])
  {
  }

  lemma ApartSteps(cfg: Config, args: seq<string>, option: bool, n: nat)
    requires args != [] && args[0] != "--" && option == !NonOption(cfg, args[0]) && !Halts(cfg, args)
    requires n == if option then Taken(cfg, args) else 1
    ensures n <= |args| && args[..n] == (if option then args[..n] else [args[0]])
    ensures Apart(cfg, args).options == (if option then args[..n] else []) + Apart(cfg, args[n..]).options
    ensures Apart(cfg, args).others == (if option then [] else args[..n]) + Apart(cfg, args[n..]).others
  {
  }

  lemma StableAfter(cfg: Config, args: seq<string>, option: bool, n: nat, m: seq<bool>, e: nat)
    requires 1 <= n <= |args| && Marks(cfg, args[n..], m, e)
    requires !option ==> forall i :: 0 <= i < n ==> NonOption(cfg, args[i])
    ensures var mark := seq(n, _ => option) + m;
            && Marks(cfg, args, mark, n + e)
            && Marked(args, mark, true) == (if option then args[..n] else []) + Marked(args[n..], m, true)
            && Marked(args, mark, false) == (if option then [] else args[..n]) + Marked(args[n..], m, false)
  {
    var t := seq(n, _ => option);
    MarksAfter(cfg, args, n, t, m, e);
    MarkedAfter(args, n, t, m, option);
    MarkedAfter(args, n, t, m, !option);
    MarkedAll(args[..n], t, option);
  }

  lemma StableAtEnd(cfg: Config, args: seq<string>) returns (mark: seq<bool>)
    requires args != [] && args[0] == "--"
    ensures Marks(cfg, args, mark, 1)
    ensures Apart(cfg, args) == Split(Marked(args, mark, true), Marked(args, mark, false))
  {
    ApartAtEnd(cfg, args);
    mark := [true] + seq(|args| - 1, _ => false);
    MarkedAll(args[1..], mark[1..], false);
  }

  lemma StableStep(cfg: Config, args: seq<string>, option: bool, n: nat, m: seq<bool>, e: nat) returns (mark: seq<bool>)
    requires args != [] && args[0] != "--" && option == !NonOption(cfg, args[0]) && !Halts(cfg, args)
    requires n == (if option then Taken(cfg, args) else 1) && 1 <= n <= |args|
    requires Marks(cfg, args[n..], m, e)
    requires Apart(cfg, args[n..]) == Split(Marked(args[n..], m, true), Marked(args[n..], m, false))
    ensures Marks(cfg, args, mark, n + e)
    ensures Apart(cfg, args) == Split(Marked(args, mark, true), Marked(args, mark, false))
  {
    ApartSteps(cfg, args, option, n);
    StableAfter(cfg, args, option, n, m, e);
    mark := seq(n, _ => option) + m;
  }

  // Options and others both keep their order: it is one marking of the arguments
  // that tells them apart.
  lemma {:induction false} ApartIsStable(cfg: Config, args: seq<string>) returns (mark: seq<bool>, end: nat)
    ensures Marks(cfg, args, mark, end)
    ensures Apart(cfg, args) == Split(Marked(args, mark, true), Marked(args, mark, false))
    decreases |args|
  {
    if args == [] {
      mark, end := [], 0;
    } else if args[0] == "--" {
      mark := StableAtEnd(cfg, args);
      end := 1;
    } else if Halts(cfg, args) {
      mark, end := seq(|args|, _ => false), 0;
      assert args[0..] == args;
      MarkedAll(args, mark, false);
    } else {
      var option := !NonOption(cfg, args[0]);
      var n := if option then Taken(cfg, args) else 1;
      var m, e := ApartIsStable(cfg, args[n..]);
      mark := StableStep(cfg, args, option, n, m, e);
      end := n + e;
    }
  }

  // The same from within an option.
  function ApartFrom(cfg: Config, place: string, rest: seq<string>): Split
    requires place != "" ==> Inside(cfg, place, rest)
  {
    if place == "" then Apart(cfg, rest)
    else if Stops(cfg, place, rest) then Split([], rest)
    else
      var n := Cluster(cfg, place, rest);
      var r := Apart(cfg, rest[n..]);
      Split(rest[..n] + r.options, r.others)
  }

  function HaltFrom(cfg: Config, place: string, rest: seq<string>): Option<seq<string>>
    requires place != "" ==> Inside(cfg, place, rest)
  {
    if place == "" then Halt(cfg, rest)
    else if Stops(cfg, place, rest) then Some(rest)
    else Halt(cfg, rest[Cluster(cfg, place, rest)..])
  }

  // A call made within a word answers -1, with the rest of the vector unread, on
  // a '-' that is no option letter; a table of long options prevents it in all
  // words but "-", which is no option then.
  lemma ParseStops(cfg: Config, place: string, rest: seq<string>)
    requires rest != [] && place != ""
    ensures Parse(cfg, place, rest).answer.Done? <==>
      place == "-" && '-' !in cfg.options && (cfg.long.None? || |rest[0]| == 1)
  {
    if place == "-" { assert place[1..] == ""; }
  }

  // A letter that takes, or may take, an argument.
  predicate TakesArgument(options: string, c: char) {
    c != ':' && c in options && CharAt(options, Find(options, c) + 1) == ':'
  }

  // A word stops a run if and only if there is no table, '-' is no option letter,
  // and the word ends in a '-' with no letter before it that takes an argument.
  lemma {:induction false} StopsIff(cfg: Config, place: string, rest: seq<string>)
    requires Inside(cfg, place, rest)
    ensures Stops(cfg, place, rest) <==>
      && cfg.long.None? && '-' !in cfg.options && place[|place| - 1] == '-'
      && forall i :: 0 <= i < |place| - 1 ==> !TakesArgument(cfg.options, place[i])
    decreases |place|
  {
    var r := Parse(cfg, place, rest);
    ParseStops(cfg, place, rest);
    if cfg.long.None? && '-' !in cfg.options {
      LetterGoesOn(cfg, place, rest);
      if !r.answer.Done? && r.place != "" {
        StopsIff(cfg, r.place, rest);
        assert place[1..][|place| - 2] == place[|place| - 1];
        assert forall i :: 1 <= i < |place| ==> place[i] == place[1..][i - 1];
      }
    } else if r.place != "" {
      StopsIff(cfg, r.place, rest);
    }
  }

  lemma LetterGoesOn(cfg: Config, place: string, rest: seq<string>)
    requires rest != [] && place != "" && cfg.long.None? && '-' !in cfg.options
    ensures var r := Parse(cfg, place, rest);
            !r.answer.Done? ==> r.place == if TakesArgument(cfg.options, place[0]) then "" else place[1..]
  {
  }

  // With a table, or where '-' is an option letter, no run halts: all are sorted.
  lemma {:induction false} NoneHalts(cfg: Config, args: seq<string>)
    requires cfg.long.Some? || '-' in cfg.options
    ensures Halt(cfg, args).None? && EndsSorted(cfg, args)
    decreases |args|
  {
    if args != [] && NonOption(cfg, args[0]) {
      NoneHalts(cfg, args[1..]);
    } else if args != [] && args[0] != "--" {
      StopsIff(cfg, Opening(args[0]), args);
      NoneHalts(cfg, args[Taken(cfg, args)..]);
    }
  }

  // Without a table, "x -a-" leaves x before the word the run halts in.
  lemma DashHalts()
    ensures var cfg, args := Config("a", None, false), ["x", "-a-"];
            Halt(cfg, args) == Some(["-a-"]) && Apart(cfg, args) == Split([], args) && !EndsSorted(cfg, args)
  {
    var cfg, args := Config("a", None, false), ["x", "-a-"];
    assert args[1..] == ["-a-"] && Opening("-a-") == "a-";
    StopsIff(cfg, "a-", ["-a-"]);
    assert Find("a", 'a') == 0 && !TakesArgument("a", 'a');
    assert Halts(cfg, ["-a-"]);
  }

  lemma LeftWhereItWas(vector: seq<string>, start: int)
    requires 1 <= start <= 1 && vector == Between(["prog"], [], start - 1, ["x", "-a-"][..1], ["-a-"])
    ensures vector == ["prog", "x", "-a-"]
  {
    assert ["x", "-a-"][..1] == ["x"];
  }

  method HaltedRun(scanner: Scanner)
    requires scanner.Valid() && scanner.argv.Length == 3 && scanner.before == ["prog"]
    requires scanner.cfg == Config("a", None, false) && scanner.whole == ["x", "-a-"]
    modifies scanner, scanner.argv
    ensures scanner.argv[..] == ["prog", "x", "-a-"] && scanner.optind == 2
  {
    DashHalts();
    var _ := scanner.Run();
    assert scanner.Stranded();
    LeftWhereItWas(scanner.argv[..], scanner.nonoptStart);
  }

  method HaltedScan() returns (vector: seq<string>, optind: nat)
    ensures vector == ["prog", "x", "-a-"] && optind == 2
  {
    var argv := new string[3];
    argv[0], argv[1], argv[2] := "prog", "x", "-a-";
    var scanner := new Scanner(Config("a", None, false), argv);
    HaltedRun(scanner);
    vector, optind := argv[..], scanner.optind;
  }

  // ------------------------------------------------------------ the machine

  lemma BlocksExchanged(a: seq<string>, b: seq<string>, c: seq<string>, d: seq<string>)
    ensures X.Exchanged(a + b + c + d, |a|, |a| + |b|, |a| + |b| + |c|) == a + c + b + d
  {
    var s := a + b + c + d;
    assert s[..|a|] == a && s[|a|..|a| + |b|] == b;
    assert s[|a| + |b|..|a| + |b| + |c|] == c && s[|a| + |b| + |c|..] == d;
  }

  // The vector with the skipped arguments between two runs of options, and what
  // the exchange makes of it.
  function Between(before: seq<string>, taken: seq<string>, s: nat, skipped: seq<string>, rest: seq<string>): seq<string>
    requires s <= |taken|
  {
    (before + taken[..s]) + skipped + taken[s..] + rest
  }

  lemma Permuted(before: seq<string>, taken: seq<string>, s: nat, skipped: seq<string>, rest: seq<string>)
    requires |before| == 1 && s <= |taken|
    ensures |Between(before, taken, s, skipped, rest)| == 1 + |taken| + |skipped| + |rest|
    ensures X.Exchanged(Between(before, taken, s, skipped, rest), 1 + s, 1 + s + |skipped|, 1 + |taken| + |skipped|)
      == before + taken + skipped + rest
  {
    BlocksExchanged(before + taken[..s], skipped, taken[s..], rest);
    assert before + taken[..s] + taken[s..] == before + taken by { assert taken == taken[..s] + taken[s..]; }
  }

  method PermuteBetween(start: nat, mid: nat, end: nat, argv: array<string>,
                        ghost before: seq<string>, ghost taken: seq<string>, ghost skipped: seq<string>, ghost rest: seq<string>)
    requires |before| == 1 && 1 <= start <= 1 + |taken| && mid == start + |skipped| < end == 1 + |taken| + |skipped|
    requires argv[..] == Between(before, taken, start - 1, skipped, rest) && skipped != []
    modifies argv
    ensures argv[..] == before + taken + skipped + rest
  {
    ghost var was := argv[..];
    ExchangedIs(was, before, taken, skipped, rest, start, mid, end);
    X.PermuteArgs(start, mid, end, argv);
  }

  lemma ExchangedIs(was: seq<string>, before: seq<string>, taken: seq<string>, skipped: seq<string>, rest: seq<string>,
                    start: nat, mid: nat, end: nat)
    requires |before| == 1 && 1 <= start <= 1 + |taken| && mid == start + |skipped| && end == 1 + |taken| + |skipped|
    requires was == Between(before, taken, start - 1, skipped, rest)
    ensures start <= mid <= end <= |was| && X.Exchanged(was, start, mid, end) == before + taken + skipped + rest
  {
    Permuted(before, taken, start - 1, skipped, rest);
  }

  lemma Closed(before: seq<string>, taken: seq<string>, skipped: seq<string>, rest: seq<string>)
    ensures Between(before, taken, |taken|, skipped, rest) == before + taken + skipped + rest
  {
    assert taken[..|taken|] == taken && taken[|taken|..] == [];
  }

  lemma TakenMore(before: seq<string>, taken: seq<string>, s: nat, skipped: seq<string>, rest: seq<string>, n: nat)
    requires n <= |rest| && s <= |taken|
    ensures before + taken + rest == before + (taken + rest[..n]) + rest[n..]
    ensures Between(before, taken, s, skipped, rest) == Between(before, taken + rest[..n], s, skipped, rest[n..])
  {
    assert rest == rest[..n] + rest[n..];
    assert (taken + rest[..n])[..s] == taken[..s] && (taken + rest[..n])[s..] == taken[s..] + rest[..n];
  }

  // What has been read and what that leaves make the whole.
  predicate Told(cfg: Config, whole: seq<string>, place: string, taken: seq<string>, skipped: seq<string>, rest: seq<string>)
    requires place != "" ==> Inside(cfg, place, rest)
  {
    && Halt(cfg, whole) == HaltFrom(cfg, place, rest)
    && Apart(cfg, whole) ==
         Split(taken + ApartFrom(cfg, place, rest).options, skipped + ApartFrom(cfg, place, rest).others)
  }

  lemma ToldOn(cfg: Config, whole: seq<string>, from: string, taken: seq<string>, skipped: seq<string>, rest: seq<string>)
    requires Inside(cfg, from, rest) && !Parse(cfg, from, rest).answer.Done?
    requires Told(cfg, whole, from, taken, skipped, rest)
    ensures var r := Parse(cfg, from, rest);
            && (r.place != "" ==> Inside(cfg, r.place, rest[r.used..]))
            && Told(cfg, whole, r.place, taken + rest[..r.used], skipped, rest[r.used..])
  {
    var r := Parse(cfg, from, rest);
    ApartTakes(cfg, from, taken, rest);
    if r.place != "" {
      assert r.used == 0 && rest[0..] == rest && taken + rest[..0] == taken;
    }
  }

  lemma ToldSkipping(cfg: Config, whole: seq<string>, taken: seq<string>, skipped: seq<string>, rest: seq<string>)
    requires rest != [] && NonOption(cfg, rest[0]) && Told(cfg, whole, "", taken, skipped, rest)
    ensures Told(cfg, whole, "", taken, skipped + rest[..1], rest[1..])
  {
    ApartSkips(cfg, skipped, rest);
  }

  // After one letter or option of what `from` starts.
  lemma ApartTakes(cfg: Config, from: string, taken: seq<string>, rest: seq<string>)
    requires Inside(cfg, from, rest) && !Parse(cfg, from, rest).answer.Done?
    ensures var r := Parse(cfg, from, rest);
            && (r.place != "" ==> Inside(cfg, r.place, rest) && HaltFrom(cfg, from, rest) == HaltFrom(cfg, r.place, rest))
            && (r.place == "" ==> HaltFrom(cfg, from, rest) == Halt(cfg, rest[r.used..]))
    ensures var r := Parse(cfg, from, rest);
            && (r.place != "" ==> Inside(cfg, r.place, rest) && ApartFrom(cfg, from, rest) == ApartFrom(cfg, r.place, rest))
            && (r.place == "" ==>
                  && ApartFrom(cfg, from, rest).others == Apart(cfg, rest[r.used..]).others
                  && taken + ApartFrom(cfg, from, rest).options == (taken + rest[..r.used]) + Apart(cfg, rest[r.used..]).options)
  {
  }

  // How much of the first argument there is to go through.
  function Weight(place: string, rest: seq<string>): nat {
    if place != "" then |place| else if rest == [] then 0 else |rest[0]| + 1
  }

  // What a call answers.
  function NextAnswer(cfg: Config, place: string, rest: seq<string>): Answer
    requires place != "" ==> rest != []
  {
    if place != "" then Parse(cfg, place, rest).answer
    else
      var h := Head(cfg, rest);
      if h == [] || h[0] == "--" then Done else Parse(cfg, Opening(h[0]), h).answer
  }

  // And what it leaves to go on with.
  function NextPlace(cfg: Config, place: string, rest: seq<string>): (r: (string, seq<string>))
    requires place != "" ==> rest != []
    requires !NextAnswer(cfg, place, rest).Done?
    ensures |r.1| < |rest| || (r.1 == rest && Weight(r.0, rest) < Weight(place, rest))
    ensures r.0 != "" ==> r.1 != []
  {
    var h := if place == "" then Head(cfg, rest) else rest;
    var from := if place == "" then Opening(h[0]) else place;
    var r := Parse(cfg, from, h);
    HeadWeight(cfg, place, rest);
    (r.place, h[r.used..])
  }

  lemma HeadWeight(cfg: Config, place: string, rest: seq<string>)
    ensures place == "" ==> |Head(cfg, rest)| < |rest| || Head(cfg, rest) == rest
  {
  }

  // All it answers, call by call, until it answers -1.
  function Answers(cfg: Config, place: string, rest: seq<string>): seq<Answer>
    requires place != "" ==> rest != []
    decreases |rest|, Weight(place, rest)
  {
    var a := NextAnswer(cfg, place, rest);
    if a.Done? then []
    else
      var (next, left) := NextPlace(cfg, place, rest);
      [a] + Answers(cfg, next, left)
  }

  // Those given, the next one, and all behind it.
  function Given(cfg: Config, given: seq<Answer>, next: Answer, place: string, rest: seq<string>): seq<Answer>
    requires place != "" && !next.Done? ==> rest != []
  {
    if next.Done? then given else given + [next] + Answers(cfg, place, rest)
  }

  lemma GivenOn(cfg: Config, given: seq<Answer>, a: Answer, place: string, rest: seq<string>, b: Answer, next: string, left: seq<string>)
    requires (place != "" ==> rest != []) && !a.Done? && b == NextAnswer(cfg, place, rest)
    requires !b.Done? ==> (next, left) == NextPlace(cfg, place, rest)
    ensures Given(cfg, given, a, place, rest) == Given(cfg, given + [a], b, next, left)
  {
  }

  lemma SkippedMore(a: seq<string>, skipped: seq<string>, rest: seq<string>)
    requires rest != []
    ensures a + skipped + rest == a + (skipped + rest[..1]) + rest[1..]
  {
    assert rest == rest[..1] + rest[1..];
  }

  lemma ApartSkips(cfg: Config, skipped: seq<string>, rest: seq<string>)
    requires rest != [] && NonOption(cfg, rest[0])
    ensures Halt(cfg, rest) == Halt(cfg, rest[1..])
    ensures Apart(cfg, rest).options == Apart(cfg, rest[1..]).options
    ensures skipped + Apart(cfg, rest).others == (skipped + rest[..1]) + Apart(cfg, rest[1..]).others
  {
    assert rest[..1] == [rest[0]];
  }

  class Scanner {
    const cfg: Config
    const argv: array<string>
    var optind: nat
    var place: string
    var nonoptStart: int
    var nonoptEnd: int
    ghost const before: seq<string>      // what precedes the arguments,
    ghost const whole: seq<string>       // the arguments,
    ghost var taken: seq<string>         // the options among those read,
    ghost var skipped: seq<string>       // the others,
    ghost var rest: seq<string>          // and those not read yet

    ghost predicate Counts()
      reads this
    {
      && |before| == 1
      && optind == 1 + |taken| + |skipped| && optind + |rest| == argv.Length
    }

    ghost predicate At(place: string)
      requires place != "" ==> Inside(cfg, place, rest)
      reads this
    {
      Told(cfg, whole, place, taken, skipped, rest)
    }

    ghost predicate Kept()
      reads this
    {
      Counts() && (place != "" ==> Inside(cfg, place, rest)) && At(place)
    }

    // Nothing skipped.
    ghost predicate Plain()
      reads this, argv
    {
      nonoptStart == nonoptEnd == -1 && skipped == [] && argv[..] == before + taken + rest
    }

    // The skipped arguments are the last that were read.
    ghost predicate Skipping()
      reads this, argv
    {
      && nonoptStart == 1 + |taken| && nonoptEnd == -1 && skipped != []
      && argv[..] == before + taken + skipped + rest
    }

    // They stand between the first options and those read since.
    ghost predicate Parted()
      reads this, argv
    {
      && 1 <= nonoptStart <= 1 + |taken| && nonoptEnd == nonoptStart + |skipped| && skipped != []
      && argv[..] == Between(before, taken, nonoptStart - 1, skipped, rest)
    }

    ghost predicate Valid()
      reads this, argv
    {
      Kept() && (Plain() || (Parted() && (place == "" ==> nonoptEnd < optind)))
    }

    // The arguments told apart, the options first, and optind at the others.
    ghost predicate Sorted()
      reads this, argv
    {
      && argv[..] == before + Apart(cfg, whole).options + Apart(cfg, whole).others
      && optind == 1 + |Apart(cfg, whole).options|
    }

    // It halts in a word, with arguments passed over: they stay between the options
    // read before and after them, and optind is at the word.
    ghost predicate Stranded()
      requires Halt(cfg, whole).Some?
      reads this, argv
    {
      var r, h := Apart(cfg, whole), Halt(cfg, whole).value;
      && |h| < |r.others| && r.others[|r.others| - |h|..] == h
      && 1 <= nonoptStart <= 1 + |r.options|
      && argv[..] == Between(before, r.options, nonoptStart - 1, r.others[..|r.others| - |h|], h)
      && optind + |h| == argv.Length
    }

    ghost predicate Over()
      reads this, argv
    {
      && (Sorted() <==> EndsSorted(cfg, whole))
      && (!EndsSorted(cfg, whole) ==> Stranded())
    }

    constructor (cfg: Config, argv: array<string>)
      requires argv.Length >= 1
      ensures Valid() && this.cfg == cfg && this.argv == argv
      ensures before == argv[..1] && whole == argv[1..] && rest == whole && place == ""
    {
      this.cfg, this.argv := cfg, argv;
      optind := 1;
      place := "";
      nonoptStart, nonoptEnd := -1, -1;
      before, whole := argv[..1], argv[1..];
      taken, skipped, rest := [], [], argv[1..];
    }

    method Permute()
      requires Counts() && Parted() && nonoptEnd < optind
      modifies argv
      ensures argv[..] == before + taken + skipped + rest
    {
      PermuteBetween(nonoptStart, nonoptEnd, optind, argv, before, taken, skipped, rest);
    }

    // A non-option, passed over for now.
    method Skip()
      requires Kept() && place == "" && rest != [] && NonOption(cfg, rest[0])
      requires Plain() || Skipping() || (Parted() && nonoptEnd < optind)
      modifies this`optind, this`nonoptStart, this`nonoptEnd, this`skipped, this`rest, argv
      ensures Kept() && Skipping() && rest == old(rest)[1..]
    {
      if nonoptStart == -1 {
        nonoptStart := optind;
      } else if nonoptEnd != -1 {
        Permute();
        nonoptStart := optind - (nonoptEnd - nonoptStart);
        nonoptEnd := -1;
      }
      optind := optind + 1;
      SkippedMore(before + taken, skipped, rest);
      ToldSkipping(cfg, whole, taken, skipped, rest);
      skipped, rest := skipped + rest[..1], rest[1..];
    }
  
    // From `start:` on: non-options are passed over until there is an option to
    // parse, or none any more.
    method FindOption() returns (found: bool)
      requires Valid() && place == ""
      modifies this`optind, this`nonoptStart, this`nonoptEnd, this`skipped, this`rest, argv
      ensures Kept() && taken == old(taken)
      ensures rest == Head(cfg, old(rest))
      ensures found ==> rest != [] && !NonOption(cfg, rest[0]) && (Plain() || Parted())
      ensures !found ==> rest == [] && (Plain() || Skipping() || (Parted() && nonoptEnd < optind))
    {
      while optind < argv.Length
        invariant Kept() && place == "" && taken == old(taken) && Head(cfg, rest) == Head(cfg, old(rest))
        invariant Plain() || Skipping() || (Parted() && nonoptEnd < optind)
        decreases |rest|
      {
        assert argv[optind] == argv[..][optind] == rest[0];
        if !NonOption(cfg, argv[optind]) {
          if nonoptStart != -1 && nonoptEnd == -1 {
            nonoptEnd := optind;
            Closed(before, taken, skipped, rest);
          }
          return true;
        }
        Skip();
      }
      return false;
    }

    // The end of the vector.
    method Finish()
      requires Kept() && place == "" && rest == [] && (Plain() || Skipping() || (Parted() && nonoptEnd < optind))
      modifies this`optind, this`nonoptStart, this`nonoptEnd, argv
      ensures Sorted() && Over()
    {
      if nonoptEnd != -1 {
        Permute();
        optind := optind - (nonoptEnd - nonoptStart);
      } else if nonoptStart != -1 {
        optind := nonoptStart;
      }
      nonoptStart, nonoptEnd := -1, -1;
    }
  
    // `n` arguments are done with.
    ghost method Take(n: nat)
      requires n <= |rest| && (Plain() || Parted())
      modifies this`taken, this`rest
      ensures Plain() || Parted()
      ensures taken == old(taken) + old(rest)[..n] && rest == old(rest)[n..]
      ensures n == 0 ==> taken == old(taken) && rest == old(rest)
    {
      TakenMore(before, taken, if nonoptStart == -1 then 0 else nonoptStart - 1, skipped, rest, n);
      taken, rest := taken + rest[..n], rest[n..];
    }

    // "--": the rest is no option whatever it looks like.
    method Terminate()
      requires Kept() && place == "" && rest != [] && rest[0] == "--" && (Plain() || Parted())
      modifies this`optind, this`nonoptStart, this`nonoptEnd, this`taken, this`rest, argv
      ensures Sorted() && Over()
    {
      ghost var was := rest;
      ApartAtEnd(cfg, was);
      assert taken + ["--"] == taken + was[..1];
      Take(1);
      optind := optind + 1;
      Together();
    }

    // The options that have been read go together, whatever stands behind them.
    method Together()
      requires Counts() && (Plain() || (Parted() && nonoptEnd < optind))
      requires Apart(cfg, whole) == Split(taken, skipped + rest)
      modifies this`optind, this`nonoptStart, this`nonoptEnd, argv
      ensures Sorted()
    {
      if nonoptEnd != -1 {
        Permute();
        optind := optind - (nonoptEnd - nonoptStart);
      }
      nonoptStart, nonoptEnd := -1, -1;
      assert before + taken + skipped + rest == before + taken + (skipped + rest);
    }

    lemma FromOptind()
      requires Counts() && (Plain() || Parted())
      ensures argv[optind..] == rest
    {
      assert argv[optind..] == argv[..][optind..];
    }

    // -1 within a word: nothing is moved any more.
    method Stop(from: string)
      requires Counts() && Inside(cfg, from, rest) && At(from) && Stops(cfg, from, rest) && (Plain() || Parted())
      modifies this`place
      ensures Over()
    {
      place := "";
      assert Halt(cfg, whole) == Some(rest) && Apart(cfg, whole) == Split(taken + [], skipped + rest);
      assert taken + [] == taken;
      if Parted() {
        assert (skipped + rest)[..|skipped|] == skipped && (skipped + rest)[|skipped|..] == rest;
      } else {
        assert skipped + rest == rest;
      }
    }

    // One option, or one letter of several, from `place` on.
    method Consume(from: string) returns (answer: Answer)
      requires Counts() && Inside(cfg, from, rest) && At(from) && (Plain() || Parted())
      modifies this`optind, this`place, this`taken, this`rest
      ensures answer == Parse(cfg, from, old(rest)).answer
      ensures answer.Done? ==> Over()
      ensures !answer.Done? ==> Valid()
      ensures !answer.Done? ==> |rest| < |old(rest)| || (rest == old(rest) && place != "" && |place| < |from|)
      ensures !answer.Done? ==> place == Parse(cfg, from, old(rest)).place && rest == old(rest)[Parse(cfg, from, old(rest)).used..]
    {
      FromOptind();
      var r := ParseOption(cfg, from, argv[optind..]);
      answer := r.answer;
      if answer.Done? {
        Stop(from);
        return;
      }
      ToldOn(cfg, whole, from, taken, skipped, rest);
      Use(r);
    }

    method Use(r: Step)
      requires Counts() && (Plain() || Parted()) && r.used <= |rest| && (r.place == "" ==> r.used > 0)
      requires r.place != "" ==> Inside(cfg, r.place, rest[r.used..])
      requires Told(cfg, whole, r.place, taken + rest[..r.used], skipped, rest[r.used..])
      modifies this`optind, this`place, this`taken, this`rest
      ensures Valid() && place == r.place && rest == old(rest)[r.used..]
    {
      place := r.place;
      optind := optind + r.used;
      Take(r.used);
    }

    // getopt_long, in a run that permutes.
    method Next() returns (answer: Answer)
      requires Valid()
      modifies this`optind, this`place, this`nonoptStart, this`nonoptEnd, this`taken, this`skipped, this`rest, argv
      ensures answer.Done? ==> Over()
      ensures !answer.Done? ==> Valid()
      ensures !answer.Done? ==> |rest| < |old(rest)| || (rest == old(rest) && Weight(place, rest) < Weight(old(place), rest))
      ensures answer == NextAnswer(cfg, old(place), old(rest))
      ensures !answer.Done? ==> (place, rest) == NextPlace(cfg, old(place), old(rest))
    {
      if place == "" {
        var found := FindOption();
        if !found {
          Finish();
          return Done;
        }
        assert argv[optind] == argv[..][optind] == rest[0];
        if argv[optind] == "--" {
          Terminate();
          return Done;
        }
        answer := Consume(Opening(argv[optind]));
      } else {
        answer := Consume(place);
      }
    }

    // Calls until one answers -1.
    method Run() returns (answers: seq<Answer>)
      requires Valid()
      modifies this`optind, this`place, this`nonoptStart, this`nonoptEnd, this`taken, this`skipped, this`rest, argv
      ensures Over() && answers == Answers(cfg, old(place), old(rest))
    {
      ghost var all := Answers(cfg, place, rest);
      answers := [];
      var answer := Next();
      while !answer.Done?
        invariant !answer.Done? ==> Valid()
        invariant answer.Done? ==> Over()
        invariant Given(cfg, answers, answer, place, rest) == all
        decreases if answer.Done? then 0 else 1, |rest|, Weight(place, rest)
      {
        ghost var given, a, from, left := answers, answer, place, rest;
        answers := answers + [answer];
        answer := Next();
        GivenOn(cfg, given, a, from, left, answer, place, rest);
      }
    }
  }
}
