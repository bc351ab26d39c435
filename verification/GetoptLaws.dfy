// What compat/getopt/getopt_long.c answers, told by what the arguments look like and the
// option string lists.

module GetoptLaws {
  import opened Wrappers
  import opened Getopt

  // ------------------------------------------------------------ the search

  // Where the search for a long option ends. `n` is the first entry of that very name,
  // or the end of the table. Before it at most one abbreviated option will do -- none
  // counts where the word is a letter that may stand for itself.
  lemma FindLongIs(long: seq<LongOption>, word: string, shortToo: bool, n: nat, r: int)
    requires n <= |long| && (n < |long| ==> long[n].name == word) && forall i :: 0 <= i < n ==> long[i].name != word
    requires r == FindLong(long, word, shortToo, 0, NOBODY)
    ensures var count := if shortToo && |word| == 1 then 0 else Abbreviated(long, word, n);
            && (count > 1 ==> r == SEVERAL)
            && (count <= 1 && n < |long| ==> r == n)
            && (count == 1 && n == |long| ==> 0 <= r < |long| && Prefix(word, long[r].name))
            && (count == 0 && n == |long| ==> r == NOBODY)
  {
    SearchFrom(long, word, shortToo, 0, NOBODY, n, r);
  }

  lemma {:induction false} SearchFrom(long: seq<LongOption>, word: string, shortToo: bool, i: nat, best: int, n: nat, r: int)
    requires i <= n <= |long| && (n < |long| ==> long[n].name == word) && forall j :: 0 <= j < n ==> long[j].name != word
    requires -1 <= best < i && (best >= 0 ==> Prefix(word, long[best].name))
    requires if shortToo && |word| == 1 then best == NOBODY
             else (best == NOBODY <==> Abbreviated(long, word, i) == 0) && Abbreviated(long, word, i) <= 1
    requires r == FindLong(long, word, shortToo, i, best)
    ensures var count := if shortToo && |word| == 1 then 0 else Abbreviated(long, word, n);
            && (count > 1 ==> r == SEVERAL)
            && (count <= 1 && n < |long| ==> r == n)
            && (count == 1 && n == |long| ==> 0 <= r < |long| && Prefix(word, long[r].name))
            && (count == 0 && n == |long| ==> r == NOBODY)
    decreases n - i
  {
    if i < n {
      MoreAbbreviated(long, word, i + 1, n);
      if Prefix(word, long[i].name) {
        ProperPrefix(word, long[i].name);
        if shortToo && |word| == 1 { SearchFrom(long, word, shortToo, i + 1, best, n, r); }
        else if best == NOBODY { SearchFrom(long, word, shortToo, i + 1, i, n, r); }
      } else {
        SearchFrom(long, word, shortToo, i + 1, best, n, r);
      }
    } else if n < |long| {
      assert Prefix(word, long[n].name);
    }
  }

  // ----------------------------------------------------------- long options

  lemma {:induction false} FindIn(before: string, c: char, after: string)
    requires c !in before
    ensures Find(before + [c] + after, c) == |before|
    decreases |before|
  {
    var s := before + [c] + after;
    if before != "" {
      FindIn(before[1..], c, after);
      assert s[1..] == before[1..] + [c] + after;
    }
  }

  lemma {:induction false} FindNot(s: string, c: char)
    requires c !in s
    ensures Find(s, c) == |s|
  {
  }

  // name=value: the value is the argument, of an option that takes one.
  lemma NameAndValue(long: seq<LongOption>, name: string, value: string, rest: seq<string>, shortToo: bool, n: int)
    requires rest != [] && '=' !in name && n == FindLong(long, name, shortToo, 0, NOBODY)
    ensures var r := ParseLong(long, name + "=" + value, rest, shortToo);
            && (n == SEVERAL ==> r == Some(Step(Ambiguous, "", 1)))
            && (n == NOBODY ==> r == if shortToo then None else Some(Step(Unknown, "", 1)))
            && (n >= 0 ==> r == Some(Step(if long[n].arity.NoArgument? then Unwanted else Long(n, Some(value)), "", 1)))
  {
    var place := name + "=" + value;
    FindIn(name, '=', value);
    assert place[..|name|] == name && place[|name| + 1..] == value;
  }

  // name alone: the argument is the next one of the vector if the option requires one,
  // and missing at its end.
  lemma NameAlone(long: seq<LongOption>, name: string, rest: seq<string>, shortToo: bool, n: int)
    requires rest != [] && '=' !in name && n == FindLong(long, name, shortToo, 0, NOBODY)
    ensures var r := ParseLong(long, name, rest, shortToo);
            && (n == SEVERAL ==> r == Some(Step(Ambiguous, "", 1)))
            && (n == NOBODY ==> r == if shortToo then None else Some(Step(Unknown, "", 1)))
            && (n >= 0 && !long[n].arity.RequiredArgument? ==> r == Some(Step(Long(n, None), "", 1)))
            && (n >= 0 && long[n].arity.RequiredArgument? && |rest| == 1 ==> r == Some(Step(Missing, "", 1)))
            && (n >= 0 && long[n].arity.RequiredArgument? && |rest| > 1 ==> r == Some(Step(Long(n, Some(rest[1])), "", 2)))
  {
    FindNot(name, '=');
    assert name[..|name|] == name;
  }

  // ---------------------------------------------------------------- letters

  // The option string lists letter `c` between these.
  predicate Listed(options: string, before: string, c: char, after: string) {
    options == before + [c] + after && c !in before && c != ':'
  }

  // -W with a ';' behind it in the option string stands for long options.
  predicate LongLetter(cfg: Config, c: char, after: string) {
    cfg.long.Some? && c == 'W' && after != "" && after[0] == ';'
  }

  // A listed letter with no ':' behind it takes no argument; with one it takes the rest
  // of the word, or if there is none the next argument; with two only the rest.
  lemma LetterListed(cfg: Config, before: string, c: char, after: string, word: string, rest: seq<string>)
    requires rest != [] && Listed(cfg.options, before, c, after) && !LongLetter(cfg, c, after) && (c == '-' ==> word == "")
    ensures var r := ParseLetter(cfg, [c] + word, rest);
            var takes := after != "" && after[0] == ':';
            var may := takes && |after| > 1 && after[1] == ':';
            && (!takes ==> r == Step(Letter(c, None), word, if word == "" then 1 else 0))
            && (takes && word != "" ==> r == Step(Letter(c, Some(word)), "", 1))
            && (may && word == "" ==> r == Step(Letter(c, None), "", 1))
            && (takes && !may && word == "" && |rest| == 1 ==> r == Step(Missing, "", 1))
            && (takes && !may && word == "" && |rest| > 1 ==> r == Step(Letter(c, Some(rest[1])), "", 2))
  {
    FindIn(before, c, after);
    var place := [c] + word;
    assert place[1..] == word;
    ListedAt(cfg.options, before, c, after);
  }

  lemma ListedAt(options: string, before: string, c: char, after: string)
    requires options == before + [c] + after
    ensures CharAt(options, |before| + 1) == (if after == "" then '\0' else after[0])
    ensures CharAt(options, |before| + 2) == (if |after| < 2 then '\0' else after[1])
  {
  }

  // Any other letter is unknown, and so are ':' and a '-' with something behind it; one
  // that ends a word and is no option letter ends the run.
  lemma LetterUnlisted(cfg: Config, c: char, word: string, rest: seq<string>)
    requires rest != [] && (c !in cfg.options || c == ':' || (c == '-' && word != ""))
    ensures ParseLetter(cfg, [c] + word, rest) ==
      if c == '-' && word == "" then Step(Done, "", 0) else Step(Unknown, word, if word == "" then 1 else 0)
  {
    if c !in cfg.options { FindNot(cfg.options, c); }
    assert ([c] + word)[1..] == word;
  }

  // -W name, in one word or two.
  lemma LetterForLong(cfg: Config, before: string, after: string, word: string, rest: seq<string>)
    requires rest != [] && Listed(cfg.options, before, 'W', after) && LongLetter(cfg, 'W', after)
    ensures var r := ParseLetter(cfg, "W" + word, rest);
            && (word != "" ==> Some(r) == ParseLong(cfg.long.value, word, rest, false))
            && (word == "" && |rest| == 1 ==> r == Step(Missing, "", 1))
            && (word == "" && |rest| > 1 ==>
                  var t := ParseLong(cfg.long.value, rest[1], rest[1..], false);
                  t.Some? && r == Step(t.value.answer, "", 1 + t.value.used))
  {
    FindIn(before, 'W', after);
    assert ("W" + word)[1..] == word;
    ListedAt(cfg.options, before, 'W', after);
  }

  // -------------------------------------------------------------- arguments

  // --name is a long option where there is a table.
  lemma TwoDashes(cfg: Config, name: string, rest: seq<string>)
    requires cfg.long.Some? && name != "" && rest != [] && rest[0] == "--" + name
    ensures !NonOption(cfg, rest[0]) && Some(Parse(cfg, Opening(rest[0]), rest)) == ParseLong(cfg.long.value, name, rest, false)
  {
    assert Opening(rest[0]) == "-" + name && ("-" + name)[1..] == name;
  }

  // -name is letters, but in getopt_long_only a long option first, where a letter may
  // stand for itself if it is one.
  lemma OneDash(cfg: Config, c: char, word: string, rest: seq<string>)
    requires c != '-' && rest != [] && rest[0] == "-" + [c] + word
    ensures !NonOption(cfg, rest[0])
    ensures var r := Parse(cfg, Opening(rest[0]), rest);
            if cfg.long.None? || !cfg.longOnly then r == ParseLetter(cfg, [c] + word, rest)
            else
              var t := ParseLong(cfg.long.value, [c] + word, rest, c != ':' && c in cfg.options);
              r == if t.Some? then t.value else ParseLetter(cfg, [c] + word, rest)
  {
    assert Opening(rest[0]) == [c] + word;
  }

  // All that a run answers: nothing for what is no option and from "--" on, and for an
  // option what its word makes, letter by letter.
  lemma AnswersTell(cfg: Config, args: seq<string>)
    ensures args == [] || args[0] == "--" ==> Answers(cfg, "", args) == []
    ensures args != [] && NonOption(cfg, args[0]) ==> Answers(cfg, "", args) == Answers(cfg, "", args[1..])
    ensures args != [] && args[0] != "--" && !NonOption(cfg, args[0]) ==>
      Answers(cfg, "", args) == Answers(cfg, Opening(args[0]), args)
  {
    if args != [] && NonOption(cfg, args[0]) {
      assert Head(cfg, args) == Head(cfg, args[1..]);
      SameHead(cfg, args, args[1..]);
    } else if args != [] && args[0] != "--" {
      assert Head(cfg, args) == args;
      OpeningAnswers(cfg, args);
    }
  }

  lemma SameHead(cfg: Config, a: seq<string>, b: seq<string>)
    requires Head(cfg, a) == Head(cfg, b)
    ensures Answers(cfg, "", a) == Answers(cfg, "", b)
  {
  }

  lemma OpeningAnswers(cfg: Config, args: seq<string>)
    requires args != [] && Head(cfg, args) == args && args[0] != "--" && args[0] != ""
    ensures Answers(cfg, "", args) == Answers(cfg, Opening(args[0]), args)
  {
    var from := Opening(args[0]);
    assert NextAnswer(cfg, "", args) == NextAnswer(cfg, from, args);
    if !NextAnswer(cfg, from, args).Done? {
      assert NextPlace(cfg, "", args) == NextPlace(cfg, from, args);
    }
  }

  lemma WordAnswers(cfg: Config, place: string, rest: seq<string>)
    requires place != "" && rest != []
    ensures var r := Parse(cfg, place, rest);
            Answers(cfg, place, rest) == if r.answer.Done? then [] else [r.answer] + Answers(cfg, r.place, rest[r.used..])
  {
  }
}
