/** Reading the kernel's syscall list in two passes, first tagging every entry
    with the conditional block it stands in and then filtering by flag, against
    a preprocessor that drops the inactive blocks while it reads. */
module UpstreamFilter {
  import opened Wrappers
  import opened SyscallSyntax

  datatype ReadError = AssertionError | IndexError | EntryError

  /** What a line of the file is; `If` holds the word after the directive, which
      is negated for `#ifndef`. */
  datatype Line = Skipped | If(flag: string, negated: bool) | IfWithoutFlag | Else | Endif | Entry(text: string)

  datatype Syscall = Syscall(name: string, number: int, call: string)

  /** A syscall with the flags that must, and must not, be defined. */
  datatype Tagged = Tagged(syscall: Syscall, defined: seq<string>, undefined: seq<string>)

  type EntryParser = string -> Option<Syscall>

  // ----- Lines

  function Words(s: string): seq<string>
    decreases |s|
  {
    var t := StripLeft(s);
    if t == "" then []
    else
      StripLeftStripped(s);
      var n := WordEnd(t);
      [t[..n]] + Words(t[n..])
  }

  function WordEnd(s: string): (n: nat)
    ensures n <= |s| && (s != "" && !IsSpace(s[0]) ==> n > 0)
  {
    if s == "" || IsSpace(s[0]) then 0 else 1 + WordEnd(s[1..])
  }

  lemma {:induction false} StripLeftStripped(s: string)
    ensures StripLeft(s) != "" ==> !IsSpace(StripLeft(s)[0])
  {
    if s != "" && IsSpace(s[0]) {
      StripLeftStripped(s[1..]);
    }
  }

  function KindOf(line: string): Line {
    KindOfText(Strip(line), Words(Strip(line)))
  }

  function KindOfText(s: string, words: seq<string>): Line {
    if s == "" || ";" <= s || "#include" <= s then Skipped
    else if "#if" <= s then (if |words| < 2 then IfWithoutFlag else If(words[1], "#ifndef" <= s))
    else if "#else" <= s then Else
    else if "#endif" <= s then Endif
    else Entry(s)
  }

  // ----- What lines are read as

  /** A text without spaces. */
  predicate IsSolid(s: string) {
    s != "" && forall c :: c in s ==> !IsSpace(c)
  }

  lemma {:induction false} WordEndOf(word: string, rest: string)
    requires (forall c :: c in word ==> !IsSpace(c)) && (rest == "" || IsSpace(rest[0]))
    ensures WordEnd(word + rest) == |word|
  {
    if word == "" {
      assert word + rest == rest;
    } else {
      assert word[0] in word && (word + rest)[1..] == word[1..] + rest;
      WordEndOf(word[1..], rest);
    }
  }

  /** The first word of a text is the one after its leading spaces. */
  lemma FirstWord(gap: string, word: string, rest: string)
    requires AllSpace(gap) && IsSolid(word) && (rest == "" || IsSpace(rest[0]))
    ensures Words(gap + (word + rest)) == [word] + Words(rest)
  {
    StripLeftSpace(gap, word + rest);
    assert word[0] in word && StripLeft(word + rest) == word + rest;
    WordEndOf(word, rest);
    assert (word + rest)[..|word|] == word && (word + rest)[|word|..] == rest;
  }

  lemma StartsAs(prefix: string, s: string, i: nat)
    requires prefix <= s && i < |prefix|
    ensures s[i] == prefix[i]
  {
  }

  /** Comments and includes are skipped, `#else` and `#endif` are read as such, and
      what starts with no directive is an entry, without the spaces around it. */
  lemma ReadsLine(lead: string, core: string, trail: string)
    requires AllSpace(lead) && AllSpace(trail) && IsTrimmed(core)
    ensures core[0] == ';' || "#include" <= core ==> KindOf(lead + core + trail) == Skipped
    ensures "#else" <= core ==> KindOf(lead + core + trail) == Else
    ensures "#endif" <= core ==> KindOf(lead + core + trail) == Endif
    ensures core[0] !in {';', '#'} ==> KindOf(lead + core + trail) == Entry(core)
  {
    StripsTo(lead, core, trail);
    hide Strip;
    ReadsText(core, Words(core));
  }

  lemma ReadsText(core: string, words: seq<string>)
    requires core != ""
    ensures core[0] == ';' || "#include" <= core ==> KindOfText(core, words) == Skipped
    ensures "#else" <= core ==> KindOfText(core, words) == Else
    ensures "#endif" <= core ==> KindOfText(core, words) == Endif
    ensures core[0] !in {';', '#'} ==> KindOfText(core, words) == Entry(core)
  {
    if ";" <= core {
      StartsAs(";", core, 0);
    }
    if core[0] == ';' {
      assert core == ";" + core[1..];
    }
    if "#include" <= core {
      StartsAs("#include", core, 1);
    }
    if "#if" <= core {
      StartsAs("#if", core, 0);
      StartsAs("#if", core, 1);
    }
    if "#else" <= core {
      StartsAs("#else", core, 0);
      StartsAs("#else", core, 1);
      StartsAs("#else", core, 2);
    }
    if "#endif" <= core {
      StartsAs("#endif", core, 0);
      StartsAs("#endif", core, 1);
      StartsAs("#endif", core, 2);
    }
    if "#include" <= core {
      StartsAs("#include", core, 0);
    }
  }

  lemma ReadsBlank(s: string)
    requires AllSpace(s)
    ensures KindOf(s) == Skipped
  {
    StripLeftSpace(s, "");
    assert s + "" == s;
  }

  lemma StartsNotAs(prefix: string, s: string, i: nat)
    requires i < |prefix| && i < |s| && s[i] != prefix[i]
    ensures !(prefix <= s)
  {
  }

  /** What an `#if` in any spelling is read as. */
  lemma ReadsDirective(core: string, words: seq<string>)
    requires "#if" <= core
    ensures KindOfText(core, words) == if |words| < 2 then IfWithoutFlag else If(words[1], "#ifndef" <= core)
  {
    StartsAs("#if", core, 0);
    StartsAs("#if", core, 2);
    StartsNotAs(";", core, 0);
    if |core| >= |"#include"| {
      StartsNotAs("#include", core, 2);
    }
  }

  /** An `#if` in any spelling, followed by spaces and a word, is read as that
      word, and `#ifndef` as negated. */
  lemma ReadsIf(lead: string, directive: string, gap: string, flag: string, rest: string, trail: string)
    requires AllSpace(lead) && AllSpace(gap) && gap != "" && AllSpace(trail)
    requires "#if" <= directive && IsSolid(directive) && IsSolid(flag)
    requires rest == "" || (IsSpace(rest[0]) && !IsSpace(rest[|rest| - 1]))
    ensures KindOf(lead + (directive + (gap + (flag + rest))) + trail) == If(flag, "#ifndef" <= directive)
  {
    var after := gap + (flag + rest);
    var core := directive + after;
    hide *;
    IfIsTrimmed(directive, gap, flag, rest);
    StripsTo(lead, core, trail);
    WordsOfIf(directive, gap, flag, rest);
    assert "#if" <= core by {
      assert core[..3] == directive[..3];
    }
    ReadsDirective(core, Words(core));
    GapStarts(gap, flag + rest);
    NdefOfDirective(directive, after);
    KindIsOfText(lead + core + trail);
  }

  lemma GapStarts(gap: string, after: string)
    requires AllSpace(gap) && gap != ""
    ensures gap + after != "" && IsSpace((gap + after)[0])
  {
    assert gap[0] in gap;
  }

  lemma KindIsOfText(line: string)
    ensures KindOf(line) == KindOfText(Strip(line), Words(Strip(line)))
  {
  }

  lemma IfIsTrimmed(directive: string, gap: string, flag: string, rest: string)
    requires AllSpace(gap) && gap != "" && IsSolid(directive) && IsSolid(flag)
    requires rest == "" || (IsSpace(rest[0]) && !IsSpace(rest[|rest| - 1]))
    ensures IsTrimmed(directive + (gap + (flag + rest)))
  {
    var core := directive + (gap + (flag + rest));
    assert directive[0] in directive && flag[|flag| - 1] in flag && core[0] == directive[0];
    assert core[|core| - 1] == if rest == "" then flag[|flag| - 1] else rest[|rest| - 1];
  }

  lemma WordsOfIf(directive: string, gap: string, flag: string, rest: string)
    requires AllSpace(gap) && gap != "" && IsSolid(directive) && IsSolid(flag)
    requires rest == "" || IsSpace(rest[0])
    ensures Words(directive + (gap + (flag + rest))) == [directive] + ([flag] + Words(rest))
  {
    hide Words;
    var after := gap + (flag + rest);
    assert gap[0] in gap && after[0] == gap[0];
    FirstWord("", directive, after);
    FirstWord(gap, flag, rest);
    assert "" + (directive + after) == directive + after;
  }

  /** The directive is told by its own letters, not by what follows it. */
  lemma NdefOfDirective(directive: string, after: string)
    requires IsSolid(directive) && (after == "" || IsSpace(after[0]))
    ensures "#ifndef" <= directive + after <==> "#ifndef" <= directive
  {
    var core := directive + after;
    if after != "" {
      assert core[|directive|] == after[0];
    } else {
      assert core == directive;
    }
    if "#ifndef" <= directive {
      assert core[..7] == directive[..7];
    }
    if "#ifndef" <= core {
      assert forall k :: 0 <= k < 7 ==> core[k] == "#ifndef"[k] && !IsSpace("#ifndef"[k]);
      assert |directive| >= 7;
      assert core[..7] == directive[..7];
    }
  }

  /** An `#if` without a word after it. */
  lemma ReadsBareIf(lead: string, directive: string, trail: string)
    requires AllSpace(lead) && AllSpace(trail) && "#if" <= directive && IsSolid(directive)
    ensures KindOf(lead + directive + trail) == IfWithoutFlag
  {
    hide *;
    SolidIsTrimmed(directive);
    StripsTo(lead, directive, trail);
    NoSpaceAtAll();
    assert directive + "" == directive && "" + directive == directive;
    FirstWord("", directive, "");
    NoWords();
    ReadsDirective(directive, Words(directive));
    KindIsOfText(lead + directive + trail);
  }

  lemma SolidIsTrimmed(s: string)
    requires IsSolid(s)
    ensures IsTrimmed(s)
  {
    assert s[0] in s && s[|s| - 1] in s;
  }

  lemma NoSpaceAtAll()
    ensures AllSpace("")
  {
  }

  lemma NoWords()
    ensures Words("") == []
  {
  }

  function Kinds(lines: seq<string>): (r: seq<Line>)
    ensures |r| == |lines| && forall i :: 0 <= i < |r| ==> r[i] == KindOf(lines[i])
  {
    seq(|lines|, i requires 0 <= i < |lines| => KindOf(lines[i]))
  }

  // ----- Reading and tagging

  /** The two flags that reading carries: of the open `#if`, and of the open
      `#else`. */
  datatype Tags = Tags(defined: Option<string>, undefined: Option<string>)

  const NO_TAGS := Tags(None, None)

  function Listed(flag: Option<string>): seq<string> {
    if flag.Some? then [flag.value] else []
  }

  function TagStep(line: Line, t: Tags): Result<Tags, ReadError> {
    match line
    case If(flag, negated) => Ok(t.(defined := Some(flag)))
    case IfWithoutFlag => Err(IndexError)
    case Else => if t.defined.None? then Err(AssertionError) else Ok(Tags(None, t.defined))
    case Endif => if t.defined.Some? then Err(AssertionError) else Ok(t.(undefined := None))
    case _ => Ok(t)
  }

  function Tag(lines: seq<Line>, parse: EntryParser, t: Tags): Result<seq<Tagged>, ReadError> {
    if lines == [] then Ok([])
    else if lines[0].Entry? then
      match parse(lines[0].text)
      case None => Err(EntryError)
      case Some(s) =>
        var rest :- Tag(lines[1..], parse, t);
        Ok([Tagged(s, Listed(t.defined), Listed(t.undefined))] + rest)
    else
      var t' :- TagStep(lines[0], t);
      Tag(lines[1..], parse, t')
  }

  function After(done: seq<Tagged>, rest: Result<seq<Tagged>, ReadError>): Result<seq<Tagged>, ReadError> {
    if rest.Ok? then Ok(done + rest.value) else rest
  }

  lemma TagAfter(done: seq<Tagged>, lines: seq<Line>, i: nat, parse: EntryParser, t: Tags)
    requires i < |lines|
    ensures After(done, Tag(lines[i..], parse, t)) ==
      if lines[i].Entry? then
        (match parse(lines[i].text)
         case None => Err(EntryError)
         case Some(s) =>
           After(done + [Tagged(s, Listed(t.defined), Listed(t.undefined))], Tag(lines[i + 1..], parse, t)))
      else
        (match TagStep(lines[i], t)
         case Err(e) => Err(e)
         case Ok(t') => After(done, Tag(lines[i + 1..], parse, t')))
  {
    assert lines[i..][0] == lines[i] && lines[i..][1..] == lines[i + 1..];
    if lines[i].Entry? && parse(lines[i].text).Some? && Tag(lines[i + 1..], parse, t).Ok? {
      var x := Tagged(parse(lines[i].text).value, Listed(t.defined), Listed(t.undefined));
      var rest := Tag(lines[i + 1..], parse, t).value;
      assert done + ([x] + rest) == (done + [x]) + rest;
    }
  }

  /** Reads the file line by line, keeping the flags in two variables. */
  method ParseSyscalls(lines: seq<string>, parse: EntryParser) returns (r: Result<seq<Tagged>, ReadError>)
    ensures r == Tag(Kinds(lines), parse, NO_TAGS)
  {
    hide Strip, Words;
    var defined, undefined := None, None;
    var parsed := [];
    ghost var kinds := Kinds(lines);
    assert kinds[0..] == kinds && forall rest: seq<Tagged> :: [] + rest == rest;
    for i := 0 to |lines|
      invariant Tag(kinds, parse, NO_TAGS) == After(parsed, Tag(kinds[i..], parse, Tags(defined, undefined)))
    {
      TagAfter(parsed, kinds, i, parse, Tags(defined, undefined));
      var line := Strip(lines[i]);
      if line == "" || ";" <= line || "#include" <= line {
        continue;
      }
      if "#if" <= line {
        var words := Words(line);
        if |words| < 2 {
          return Err(IndexError);
        }
        defined := Some(words[1]);
        continue;
      }
      if "#else" <= line {
        if defined.None? {
          return Err(AssertionError);
        }
        undefined, defined := defined, None;
        continue;
      }
      if "#endif" <= line {
        if defined.Some? {
          return Err(AssertionError);
        }
        undefined := None;
        continue;
      }
      var entry := parse(line);
      if entry.None? {
        return Err(EntryError);
      }
      parsed := parsed + [Tagged(entry.value, Listed(defined), Listed(undefined))];
    }
    assert parsed + [] == parsed;
    return Ok(parsed);
  }

  // ----- Filtering

  predicate Admits(defined: seq<string>, undefined: seq<string>, flags: seq<string>) {
    (forall f | f in defined :: f in flags) && (forall f | f in undefined :: f !in flags)
  }

  function Filter(tagged: seq<Tagged>, flags: seq<string>, names: seq<string>): seq<Tagged> {
    if tagged == [] then []
    else if tagged[0].syscall.name !in names && Admits(tagged[0].defined, tagged[0].undefined, flags)
    then [tagged[0]] + Filter(tagged[1..], flags, names)
    else Filter(tagged[1..], flags, names)
  }

  method FilterSyscalls(tagged: seq<Tagged>, flags: seq<string>, names: seq<string>) returns (filtered: seq<Tagged>)
    ensures filtered == Filter(tagged, flags, names)
  {
    filtered := [];
    for i := 0 to |tagged|
      invariant filtered + Filter(tagged[i..], flags, names) == Filter(tagged, flags, names)
    {
      assert tagged[i..][0] == tagged[i] && tagged[i..][1..] == tagged[i + 1..];
      if tagged[i].syscall.name in names {
        continue;
      }
      if exists f | f in tagged[i].defined :: f !in flags {
        continue;
      }
      if exists f | f in tagged[i].undefined :: f in flags {
        continue;
      }
      filtered := filtered + [tagged[i]];
    }
  }

  // ----- The preprocessor the two passes stand for

  /** An open conditional: whether its lines want the flag defined, and whether
      its `#else` has been passed. */
  datatype Block = Block(flag: string, wanted: bool, inElse: bool)

  predicate Active(open: seq<Block>, flags: seq<string>) {
    forall b | b in open :: (b.flag in flags) == b.wanted
  }

  function TurnOver(b: Block): Block {
    b.(wanted := !b.wanted, inElse := true)
  }

  /** Opens, turns over or closes the innermost block; None for a directive that
      has no block to act on. */
  function Enter(line: Line, open: seq<Block>): Option<seq<Block>> {
    match line
    case If(flag, negated) => Some(open + [Block(flag, !negated, false)])
    case IfWithoutFlag => None
    case Else =>
      if open == [] || open[|open| - 1].inElse then None
      else Some(open[..|open| - 1] + [TurnOver(open[|open| - 1])])
    case Endif => if open == [] then None else Some(open[..|open| - 1])
    case _ => Some(open)
  }

  /** The entries that stay, blocks nesting to any depth; None for a file whose
      directives do not balance. */
  function Preprocess(lines: seq<Line>, flags: seq<string>, open: seq<Block>): Option<seq<string>> {
    if lines == [] then (if open == [] then Some([]) else None)
    else
      match Enter(lines[0], open)
      case None => None
      case Some(open') =>
        match Preprocess(lines[1..], flags, open')
        case None => None
        case Some(rest) =>
          if lines[0].Entry? && Active(open, flags) then Some([lines[0].text] + rest) else Some(rest)
  }

  /** The syscalls of entries that all parse, except those with deleted names. */
  function Kept(texts: seq<string>, parse: EntryParser, names: seq<string>): seq<Syscall> {
    if texts == [] then []
    else
      var rest := Kept(texts[1..], parse, names);
      match parse(texts[0])
      case None => rest
      case Some(s) => if s.name in names then rest else [s] + rest
  }

  function Untagged(tagged: seq<Tagged>): (r: seq<Syscall>)
    ensures |r| == |tagged| && forall i :: 0 <= i < |r| ==> r[i] == tagged[i].syscall
  {
    if tagged == [] then [] else [tagged[0].syscall] + Untagged(tagged[1..])
  }

  /** Where reading stands in a file of blocks that do not nest. */
  datatype Place = Outside | InIf(flag: string) | InElse(flag: string)

  function NextPlace(line: Line, at: Place): Option<Place> {
    match line
    case If(flag, negated) => if at.Outside? then Some(InIf(flag)) else None
    case IfWithoutFlag => None
    case Else => if at.InIf? then Some(InElse(at.flag)) else None
    case Endif => if at.InElse? then Some(Outside) else None
    case _ => Some(at)
  }

  /** Every `#if` is followed by one `#else` and one `#endif` before the next. */
  predicate Flat(lines: seq<Line>, at: Place) {
    if lines == [] then at.Outside?
    else NextPlace(lines[0], at).Some? && Flat(lines[1..], NextPlace(lines[0], at).value)
  }

  predicate IsIfndef(line: Line) {
    line.If? && line.negated
  }

  /** No line is an `#ifndef`, which reading takes for an `#if`. */
  predicate NoIfndef(lines: seq<Line>) {
    forall i :: 0 <= i < |lines| ==> !IsIfndef(lines[i])
  }

  function TagsAt(at: Place): Tags {
    match at
    case Outside => NO_TAGS
    case InIf(flag) => Tags(Some(flag), None)
    case InElse(flag) => Tags(None, Some(flag))
  }

  function BlocksAt(at: Place): seq<Block> {
    match at
    case Outside => []
    case InIf(flag) => [Block(flag, true, false)]
    case InElse(flag) => [Block(flag, false, true)]
  }

  predicate EntriesParse(lines: seq<Line>, parse: EntryParser) {
    forall i :: 0 <= i < |lines| && lines[i].Entry? ==> parse(lines[i].text).Some?
  }

  lemma PlaceStep(line: Line, at: Place)
    requires NextPlace(line, at).Some? && !IsIfndef(line)
    ensures TagStep(line, TagsAt(at)) == Ok(TagsAt(NextPlace(line, at).value))
    ensures Enter(line, BlocksAt(at)) == Some(BlocksAt(NextPlace(line, at).value))
  {
    if line.If? {
      assert [] + [Block(line.flag, true, false)] == [Block(line.flag, true, false)];
    }
    if line.Else? {
      assert BlocksAt(at)[..0] + [Block(at.flag, false, true)] == [Block(at.flag, false, true)];
    }
  }

  lemma ActiveAt(at: Place, flags: seq<string>)
    ensures Active(BlocksAt(at), flags) == Admits(Listed(TagsAt(at).defined), Listed(TagsAt(at).undefined), flags)
  {
    if at.InIf? {
      assert BlocksAt(at)[0] in BlocksAt(at) && Listed(TagsAt(at).defined)[0] in Listed(TagsAt(at).defined);
    }
    if at.InElse? {
      assert BlocksAt(at)[0] in BlocksAt(at) && Listed(TagsAt(at).undefined)[0] in Listed(TagsAt(at).undefined);
    }
  }

  lemma FirstParses(lines: seq<Line>, parse: EntryParser)
    requires lines != []
    ensures EntriesParse(lines, parse) <==>
      EntriesParse(lines[1..], parse) && (lines[0].Entry? ==> parse(lines[0].text).Some?)
  {
    assert lines == [lines[0]] + lines[1..];
  }

  /** Tagging and then filtering keeps, in order, what the preprocessor keeps. */
  lemma {:induction false} FilterIsPreprocess(lines: seq<Line>, parse: EntryParser, flags: seq<string>,
      names: seq<string>, at: Place)
    requires Flat(lines, at) && NoIfndef(lines)
    ensures Preprocess(lines, flags, BlocksAt(at)).Some?
    ensures Tag(lines, parse, TagsAt(at)).Ok? <==> EntriesParse(lines, parse)
    ensures EntriesParse(lines, parse) ==>
      Untagged(Filter(Tag(lines, parse, TagsAt(at)).value, flags, names))
      == Kept(Preprocess(lines, flags, BlocksAt(at)).value, parse, names)
  {
    if lines != [] {
      var rest := lines[1..];
      FirstParses(lines, parse);
      hide EntriesParse, Admits, Active, TagsAt, BlocksAt;
      ActiveAt(at, flags);
      PlaceStep(lines[0], at);
      FilterIsPreprocess(rest, parse, flags, names, NextPlace(lines[0], at).value);
    }
  }

  /** Both passes together; for a file of flat blocks whose entries parse they
      are the preprocessor followed by the entry parser. */
  method SyscallsFrom(lines: seq<string>, parse: EntryParser, flags: seq<string>, names: seq<string>)
    returns (r: Result<seq<Tagged>, ReadError>)
    ensures r.Ok? <==> Tag(Kinds(lines), parse, NO_TAGS).Ok?
    ensures r.Ok? && Flat(Kinds(lines), Outside) && NoIfndef(Kinds(lines)) ==>
      Preprocess(Kinds(lines), flags, []).Some?
      && Untagged(r.value) == Kept(Preprocess(Kinds(lines), flags, []).value, parse, names)
  {
    var tagged :- ParseSyscalls(lines, parse);
    var filtered := FilterSyscalls(tagged, flags, names);
    if Flat(Kinds(lines), Outside) && NoIfndef(Kinds(lines)) {
      FilterIsPreprocess(Kinds(lines), parse, flags, names, Outside);
    }
    return Ok(filtered);
  }

  // ----- Which files the reading accepts

  function TagsAfter(lines: seq<Line>, t: Tags): Result<Tags, ReadError> {
    if lines == [] then Ok(t)
    else
      var t' :- TagStep(lines[0], t);
      TagsAfter(lines[1..], t')
  }

  predicate IsDirective(line: Line) {
    line.If? || line.Else? || line.Endif?
  }

  /** The last directive before a line. */
  function Previous(lines: seq<Line>, i: nat): Option<Line>
    requires i <= |lines|
  {
    if i == 0 then None
    else if IsDirective(lines[i - 1]) then Some(lines[i - 1])
    else Previous(lines, i - 1)
  }

  predicate FollowsIf(lines: seq<Line>, i: nat)
    requires i <= |lines|
  {
    Previous(lines, i).Some? && Previous(lines, i).value.If?
  }

  /** An `#else` comes straight after an `#if`, an `#endif` never does. */
  predicate InPlace(lines: seq<Line>, i: nat)
    requires i < |lines|
  {
    match lines[i]
    case IfWithoutFlag => false
    case Else => FollowsIf(lines, i)
    case Endif => !FollowsIf(lines, i)
    case _ => true
  }

  lemma {:induction false} TagsAfterOne(lines: seq<Line>, last: Line, t: Tags)
    ensures TagsAfter(lines + [last], t) ==
      var before := TagsAfter(lines, t); if before.Ok? then TagStep(last, before.value) else before
  {
    if lines == [] {
      assert [last][1..] == [];
    } else {
      assert (lines + [last])[1..] == lines[1..] + [last];
      if TagStep(lines[0], t).Ok? {
        TagsAfterOne(lines[1..], last, TagStep(lines[0], t).value);
      }
    }
  }

  lemma {:induction false} TagsOfPrefix(lines: seq<Line>, k: nat)
    requires k <= |lines|
    ensures TagsAfter(lines[..k], NO_TAGS).Ok? <==> forall i: nat :: i < k ==> InPlace(lines, i)
    ensures TagsAfter(lines[..k], NO_TAGS).Ok? ==>
      (TagsAfter(lines[..k], NO_TAGS).value.defined.Some? <==> FollowsIf(lines, k))
  {
    if k > 0 {
      TagsOfPrefix(lines, k - 1);
      assert lines[..k] == lines[..k - 1] + [lines[k - 1]];
      TagsAfterOne(lines[..k - 1], lines[k - 1], NO_TAGS);
      assert InPlace(lines, k - 1) || !InPlace(lines, k - 1);
    }
  }

  lemma {:induction false} TagAccepts(lines: seq<Line>, parse: EntryParser, t: Tags)
    ensures Tag(lines, parse, t).Ok? <==> TagsAfter(lines, t).Ok? && EntriesParse(lines, parse)
  {
    if lines != [] {
      assert lines == [lines[0]] + lines[1..];
      assert EntriesParse(lines, parse) <==>
        EntriesParse(lines[1..], parse) && (lines[0].Entry? ==> parse(lines[0].text).Some?);
      if TagStep(lines[0], t).Ok? {
        TagAccepts(lines[1..], parse, TagStep(lines[0], t).value);
      }
    }
  }

  /** A file is read without an exception exactly when its entries parse and
      each directive is in place: an `#if` without an `#else` is refused, an
      `#endif` that closes nothing is not. */
  lemma ReadsIff(lines: seq<Line>, parse: EntryParser)
    ensures Tag(lines, parse, NO_TAGS).Ok? <==>
      EntriesParse(lines, parse) && forall i: nat :: i < |lines| ==> InPlace(lines, i)
  {
    TagAccepts(lines, parse, NO_TAGS);
    TagsOfPrefix(lines, |lines|);
    assert lines[..|lines|] == lines;
  }

  /** What a line adds to a run of reading, by itself. */
  predicate BadLine(lines: seq<Line>, parse: EntryParser, i: nat)
    requires i < |lines|
  {
    !InPlace(lines, i) || (lines[i].Entry? && parse(lines[i].text).None?)
  }

  function ErrorOf(line: Line): ReadError {
    if line.Entry? then EntryError else if line.IfWithoutFlag? then IndexError else AssertionError
  }

  lemma {:induction false} TagPrefix(lines: seq<Line>, parse: EntryParser, t: Tags, i: nat)
    requires i < |lines| && TagsAfter(lines[..i], t).Ok? && EntriesParse(lines[..i], parse)
    ensures var t' := TagsAfter(lines[..i], t).value;
      && (lines[i].Entry? && parse(lines[i].text).None? ==> Tag(lines, parse, t) == Err(EntryError))
      && (TagStep(lines[i], t').Err? ==> Tag(lines, parse, t) == Err(TagStep(lines[i], t').error))
  {
    if i > 0 {
      assert lines[..i][1..] == lines[1..][..i - 1] && lines[1..][i - 1] == lines[i];
      assert lines[..i] == [lines[0]] + lines[1..][..i - 1];
      assert lines[0].Entry? ==> parse(lines[..i][0].text).Some?;
      TagPrefix(lines[1..], parse, TagStep(lines[0], t).value, i - 1);
    }
  }

  /** Reading stops at the first line that is out of place or does not parse, with
      the exception of that line. */
  lemma FirstBadLine(lines: seq<Line>, parse: EntryParser, i: nat)
    requires i < |lines| && BadLine(lines, parse, i) && forall j: nat :: j < i ==> !BadLine(lines, parse, j)
    ensures Tag(lines, parse, NO_TAGS) == Err(ErrorOf(lines[i]))
  {
    TagsOfPrefix(lines, i);
    assert forall j: nat :: j < i ==> InPlace(lines, j) by {
      forall j: nat | j < i ensures InPlace(lines, j) {
        assert !BadLine(lines, parse, j);
      }
    }
    assert EntriesParse(lines[..i], parse) by {
      forall j | 0 <= j < i && lines[..i][j].Entry? ensures parse(lines[..i][j].text).Some? {
        assert !BadLine(lines, parse, j);
      }
    }
    TagPrefix(lines, parse, NO_TAGS, i);
  }

  // ----- Which flags an entry is tagged with

  function EntryCount(lines: seq<Line>): nat {
    if lines == [] then 0 else (if lines[0].Entry? then 1 else 0) + EntryCount(lines[1..])
  }

  /** The flag of the last `#if` before a line. */
  function LastIf(lines: seq<Line>, i: nat): Option<string>
    requires i <= |lines|
  {
    if i == 0 then None else if lines[i - 1].If? then Some(lines[i - 1].flag) else LastIf(lines, i - 1)
  }

  /** Line `e` is the last `#else` before line `i`, and no `#endif` stands between. */
  predicate ElseIsOpen(lines: seq<Line>, e: nat, i: nat)
    requires e < i <= |lines|
  {
    lines[e].Else? && forall j :: e < j < i ==> !lines[j].Else? && !lines[j].Endif?
  }

  predicate NoElseIsOpen(lines: seq<Line>, i: nat)
    requires i <= |lines|
  {
    forall e: nat :: e < i ==> !ElseIsOpen(lines, e, i)
  }

  lemma {:induction false} FlagsOfPrefix(lines: seq<Line>, k: nat)
    requires k <= |lines| && TagsAfter(lines[..k], NO_TAGS).Ok?
    ensures var t := TagsAfter(lines[..k], NO_TAGS).value;
      && t.defined == (if FollowsIf(lines, k) then LastIf(lines, k) else None)
      && (forall e: nat :: e < k && ElseIsOpen(lines, e, k) ==> t.undefined == LastIf(lines, e))
      && (NoElseIsOpen(lines, k) ==> t.undefined == None)
  {
    if k > 0 {
      assert lines[..k] == lines[..k - 1] + [lines[k - 1]];
      TagsAfterOne(lines[..k - 1], lines[k - 1], NO_TAGS);
      FlagsOfPrefix(lines, k - 1);
      var line := lines[k - 1];
      if line.Else? {
        assert ElseIsOpen(lines, k - 1, k);
      } else if !line.Endif? {
        var n := k - 1;
        assert forall e: nat :: e < n ==> (ElseIsOpen(lines, e, k) <==> ElseIsOpen(lines, e, n));
        assert NoElseIsOpen(lines, k) ==> forall e: nat :: e < n ==> !ElseIsOpen(lines, e, n);
      }
    }
  }

  lemma {:induction false} TagAtEntry(lines: seq<Line>, parse: EntryParser, t: Tags, i: nat)
    requires i < |lines| && lines[i].Entry? && Tag(lines, parse, t).Ok?
    ensures parse(lines[i].text).Some? && TagsAfter(lines[..i], t).Ok?
    ensures EntryCount(lines[..i]) < |Tag(lines, parse, t).value|
    ensures var t' := TagsAfter(lines[..i], t).value;
      Tag(lines, parse, t).value[EntryCount(lines[..i])]
      == Tagged(parse(lines[i].text).value, Listed(t'.defined), Listed(t'.undefined))
    decreases i
  {
    if i > 0 {
      assert lines[..i][1..] == lines[1..][..i - 1] && lines[1..][i - 1] == lines[i];
      TagAtEntry(lines[1..], parse, if lines[0].Entry? then t else TagStep(lines[0], t).value, i - 1);
    }
  }

  /** An entry must have the flag of the `#if` that is the last directive before it,
      and must not have the flag of the `#if` before the last `#else`, unless an
      `#endif` came since. */
  lemma EntryTags(lines: seq<Line>, parse: EntryParser, i: nat)
    requires i < |lines| && lines[i].Entry? && Tag(lines, parse, NO_TAGS).Ok?
    ensures EntryCount(lines[..i]) < |Tag(lines, parse, NO_TAGS).value|
    ensures var x := Tag(lines, parse, NO_TAGS).value[EntryCount(lines[..i])];
      && parse(lines[i].text) == Some(x.syscall)
      && x.defined == (if FollowsIf(lines, i) then Listed(LastIf(lines, i)) else [])
      && (forall e: nat :: e < i && ElseIsOpen(lines, e, i) ==> x.undefined == Listed(LastIf(lines, e)))
      && (NoElseIsOpen(lines, i) ==> x.undefined == [])
  {
    TagAtEntry(lines, parse, NO_TAGS, i);
    FlagsOfPrefix(lines, i);
  }

  // ----- Nested blocks

  predicate Balanced(lines: seq<Line>, open: seq<Block>) {
    if lines == [] then open == []
    else Enter(lines[0], open).Some? && Balanced(lines[1..], Enter(lines[0], open).value)
  }

  /** For every set of flags the two flags carried by reading let an entry
      through just when the preprocessor would. */
  ghost predicate SameMeaning(t: Tags, open: seq<Block>) {
    forall flags: seq<string> :: Active(open, flags) == Admits(Listed(t.defined), Listed(t.undefined), flags)
  }

  ghost predicate SameThroughout(lines: seq<Line>, t: Tags, open: seq<Block>)
    requires TagsAfter(lines, t).Ok? && Balanced(lines, open)
  {
    SameMeaning(t, open)
    && (lines != [] ==> SameThroughout(lines[1..], TagStep(lines[0], t).value, Enter(lines[0], open).value))
  }

  lemma NoTagsInsideBlock(open: seq<Block>)
    requires open != []
    ensures !SameMeaning(NO_TAGS, open)
  {
    var b := open[0];
    var flags := if b.wanted then [] else [b.flag];
    assert b in open && !Active(open, flags);
    assert Admits(Listed(NO_TAGS.defined), Listed(NO_TAGS.undefined), flags);
  }

  /** Once blocks nest, the `#endif` of the inner one forgets the outer one. */
  lemma {:induction false} NestingIsForgotten(lines: seq<Line>, t: Tags, open: seq<Block>)
    requires TagsAfter(lines, t).Ok? && Balanced(lines, open) && |open| >= 2
    ensures !SameThroughout(lines, t, open)
  {
    var open', t' := Enter(lines[0], open).value, TagStep(lines[0], t).value;
    if lines[0].Endif? {
      NoTagsInsideBlock(open');
      assert t' == NO_TAGS;
    } else {
      NestingIsForgotten(lines[1..], t', open');
    }
  }

  /** Inside an `#ifndef` the flag that reading carries means the opposite. */
  lemma IfndefDiffers(flag: string)
    ensures !SameMeaning(Tags(Some(flag), None), [Block(flag, false, false)])
  {
    var open := [Block(flag, false, false)];
    assert open[0] in open && flag in [flag];
    assert !Active(open, [flag]) && Admits(Listed(Some(flag)), Listed(None), [flag]);
  }

  lemma {:induction false} SameIsFlat(lines: seq<Line>, at: Place)
    requires TagsAfter(lines, TagsAt(at)).Ok? && Balanced(lines, BlocksAt(at))
    requires SameThroughout(lines, TagsAt(at), BlocksAt(at))
    ensures Flat(lines, at) && NoIfndef(lines)
  {
    if lines != [] {
      var t', open' := TagStep(lines[0], TagsAt(at)).value, Enter(lines[0], BlocksAt(at)).value;
      if NextPlace(lines[0], at).None? {
        assert lines[0].If? && !at.Outside?;
        NestingIsForgotten(lines[1..], t', open');
      } else if IsIfndef(lines[0]) {
        assert SameMeaning(t', open');
        assert open' == [Block(lines[0].flag, false, false)];
        IfndefDiffers(lines[0].flag);
      } else {
        PlaceStep(lines[0], at);
        SameIsFlat(lines[1..], NextPlace(lines[0], at).value);
        assert lines == [lines[0]] + lines[1..];
      }
    }
  }

  lemma {:induction false} FlatIsSame(lines: seq<Line>, at: Place)
    requires Flat(lines, at) && NoIfndef(lines)
    ensures TagsAfter(lines, TagsAt(at)).Ok? && Balanced(lines, BlocksAt(at))
    ensures SameThroughout(lines, TagsAt(at), BlocksAt(at))
  {
    forall flags: seq<string>
      ensures Active(BlocksAt(at), flags) == Admits(Listed(TagsAt(at).defined), Listed(TagsAt(at).undefined), flags)
    {
      ActiveAt(at, flags);
    }
    if lines != [] {
      PlaceStep(lines[0], at);
      FlatIsSame(lines[1..], NextPlace(lines[0], at).value);
    }
  }

  /** Among the files that both reading and the preprocessor accept, the flags
      mean at every line what the open blocks mean exactly in the flat ones
      without `#ifndef`. */
  lemma SameThroughoutIff(lines: seq<Line>)
    requires TagsAfter(lines, NO_TAGS).Ok? && Balanced(lines, [])
    ensures SameThroughout(lines, NO_TAGS, []) <==> Flat(lines, Outside) && NoIfndef(lines)
  {
    if Flat(lines, Outside) && NoIfndef(lines) {
      FlatIsSame(lines, Outside);
    }
    if SameThroughout(lines, NO_TAGS, []) {
      SameIsFlat(lines, Outside);
    }
  }

  // ----- Which entries are kept

  function Texts(lines: seq<Line>): seq<string> {
    if lines == [] then []
    else if lines[0].Entry? then [lines[0].text] + Texts(lines[1..])
    else Texts(lines[1..])
  }

  /** For each entry, whether the flags carried by reading let it through. */
  function KeptByTags(lines: seq<Line>, t: Tags, flags: seq<string>): (r: seq<bool>)
    requires TagsAfter(lines, t).Ok?
    ensures |r| == |Texts(lines)|
  {
    if lines == [] then []
    else
      var rest := KeptByTags(lines[1..], TagStep(lines[0], t).value, flags);
      if lines[0].Entry? then [Admits(Listed(t.defined), Listed(t.undefined), flags)] + rest else rest
  }

  /** For each entry, whether the preprocessor keeps it. */
  function KeptByBlocks(lines: seq<Line>, open: seq<Block>, flags: seq<string>): (r: seq<bool>)
    requires Balanced(lines, open)
    ensures |r| == |Texts(lines)|
  {
    if lines == [] then []
    else
      var rest := KeptByBlocks(lines[1..], Enter(lines[0], open).value, flags);
      if lines[0].Entry? then [Active(open, flags)] + rest else rest
  }

  function Select(texts: seq<string>, kept: seq<bool>): seq<string>
    requires |kept| == |texts|
  {
    if texts == [] then []
    else if kept[0] then [texts[0]] + Select(texts[1..], kept[1..])
    else Select(texts[1..], kept[1..])
  }

  lemma {:induction false} PreprocessSelects(lines: seq<Line>, open: seq<Block>, flags: seq<string>)
    requires Balanced(lines, open)
    ensures Preprocess(lines, flags, open) == Some(Select(Texts(lines), KeptByBlocks(lines, open, flags)))
  {
    if lines != [] {
      PreprocessSelects(lines[1..], Enter(lines[0], open).value, flags);
      if lines[0].Entry? {
        assert Texts(lines)[1..] == Texts(lines[1..]);
        assert KeptByBlocks(lines, open, flags)[1..] == KeptByBlocks(lines[1..], open, flags);
      }
    }
  }

  lemma {:induction false} FilterSelects(lines: seq<Line>, parse: EntryParser, t: Tags, flags: seq<string>,
      names: seq<string>)
    requires TagsAfter(lines, t).Ok? && EntriesParse(lines, parse)
    ensures Tag(lines, parse, t).Ok?
    ensures Untagged(Filter(Tag(lines, parse, t).value, flags, names))
      == Kept(Select(Texts(lines), KeptByTags(lines, t, flags)), parse, names)
  {
    if lines != [] {
      assert lines == [lines[0]] + lines[1..];
      FilterSelects(lines[1..], parse, TagStep(lines[0], t).value, flags, names);
      if lines[0].Entry? {
        assert parse(lines[0].text).Some?;
        assert Texts(lines)[1..] == Texts(lines[1..]);
        assert KeptByTags(lines, t, flags)[1..] == KeptByTags(lines[1..], t, flags);
      }
    }
  }

  /** At every entry the flags carried by reading mean what the open blocks do. */
  ghost predicate SameAtEntries(lines: seq<Line>, t: Tags, open: seq<Block>)
    requires TagsAfter(lines, t).Ok? && Balanced(lines, open)
  {
    lines != [] ==>
      (lines[0].Entry? ==> SameMeaning(t, open))
      && SameAtEntries(lines[1..], TagStep(lines[0], t).value, Enter(lines[0], open).value)
  }

  ghost predicate KeepSame(lines: seq<Line>, t: Tags, open: seq<Block>)
    requires TagsAfter(lines, t).Ok? && Balanced(lines, open)
  {
    forall flags: seq<string> :: KeptByTags(lines, t, flags) == KeptByBlocks(lines, open, flags)
  }

  lemma KeepSameRest(lines: seq<Line>, t: Tags, open: seq<Block>)
    requires lines != [] && TagsAfter(lines, t).Ok? && Balanced(lines, open)
    ensures KeepSame(lines, t, open) <==>
      (lines[0].Entry? ==> SameMeaning(t, open))
      && KeepSame(lines[1..], TagStep(lines[0], t).value, Enter(lines[0], open).value)
  {
    var t', open' := TagStep(lines[0], t).value, Enter(lines[0], open).value;
    forall flags: seq<string>
      ensures KeptByTags(lines, t, flags) == KeptByBlocks(lines, open, flags) <==>
        (lines[0].Entry? ==> Active(open, flags) == Admits(Listed(t.defined), Listed(t.undefined), flags))
        && KeptByTags(lines[1..], t', flags) == KeptByBlocks(lines[1..], open', flags)
    {
      if lines[0].Entry? {
        var x, y := KeptByTags(lines, t, flags), KeptByBlocks(lines, open, flags);
        assert x == [x[0]] + x[1..] && y == [y[0]] + y[1..];
        assert x[1..] == KeptByTags(lines[1..], t', flags) && y[1..] == KeptByBlocks(lines[1..], open', flags);
      }
    }
    if KeepSame(lines, t, open) {
      forall flags: seq<string>
        ensures KeptByTags(lines[1..], t', flags) == KeptByBlocks(lines[1..], open', flags)
        ensures lines[0].Entry? ==> Active(open, flags) == Admits(Listed(t.defined), Listed(t.undefined), flags)
      {
        assert KeptByTags(lines, t, flags) == KeptByBlocks(lines, open, flags);
      }
    } else if (lines[0].Entry? ==> SameMeaning(t, open)) && KeepSame(lines[1..], t', open') {
      forall flags: seq<string> ensures KeptByTags(lines, t, flags) == KeptByBlocks(lines, open, flags) {
        assert KeptByTags(lines[1..], t', flags) == KeptByBlocks(lines[1..], open', flags);
        assert lines[0].Entry? ==> Active(open, flags) == Admits(Listed(t.defined), Listed(t.undefined), flags);
      }
    }
  }

  /** The two passes and the preprocessor keep the same entries for every set of
      flags exactly if the flags mean at each entry what the open blocks mean. */
  lemma {:induction false} KeepSameIff(lines: seq<Line>, t: Tags, open: seq<Block>)
    requires TagsAfter(lines, t).Ok? && Balanced(lines, open)
    ensures KeepSame(lines, t, open) <==> SameAtEntries(lines, t, open)
  {
    if lines != [] {
      KeepSameRest(lines, t, open);
      KeepSameIff(lines[1..], TagStep(lines[0], t).value, Enter(lines[0], open).value);
    }
  }

  /** In such a file, nested or not, both passes give what the preprocessor and
      the entry parser give. */
  lemma SameEntriesSameResult(lines: seq<Line>, parse: EntryParser, flags: seq<string>, names: seq<string>)
    requires TagsAfter(lines, NO_TAGS).Ok? && Balanced(lines, []) && EntriesParse(lines, parse)
    requires SameAtEntries(lines, NO_TAGS, [])
    ensures Tag(lines, parse, NO_TAGS).Ok? && Preprocess(lines, flags, []).Some?
    ensures Untagged(Filter(Tag(lines, parse, NO_TAGS).value, flags, names))
      == Kept(Preprocess(lines, flags, []).value, parse, names)
  {
    FilterSelects(lines, parse, NO_TAGS, flags, names);
    PreprocessSelects(lines, [], flags);
    KeepSameIff(lines, NO_TAGS, []);
    assert KeptByTags(lines, NO_TAGS, flags) == KeptByBlocks(lines, [], flags);
  }

  // ----- When two flags mean what open blocks mean

  function Wanted(open: seq<Block>): seq<string> {
    if open == [] then []
    else if !open[0].wanted then Wanted(open[1..])
    else [open[0].flag] + Wanted(open[1..])
  }

  function Unwanted(open: seq<Block>): seq<string> {
    if open == [] then []
    else if !open[0].wanted then [open[0].flag] + Unwanted(open[1..])
    else Unwanted(open[1..])
  }

  lemma {:induction false} ActiveIsAdmitted(open: seq<Block>, flags: seq<string>)
    ensures Active(open, flags) <==> Admits(Wanted(open), Unwanted(open), flags)
  {
    if open != [] {
      var b := open[0];
      ActiveIsAdmitted(open[1..], flags);
      assert open == [b] + open[1..];
      assert b in open;
      assert Active(open, flags) <==> (b.flag in flags) == b.wanted && Active(open[1..], flags);
      AdmitsFirst(b, Wanted(open[1..]), Unwanted(open[1..]), flags);
    }
  }

  lemma AdmitsFirst(b: Block, defined: seq<string>, undefined: seq<string>, flags: seq<string>)
    ensures !b.wanted ==>
      (Admits(defined, [b.flag] + undefined, flags) <==> b.flag !in flags && Admits(defined, undefined, flags))
    ensures b.wanted ==>
      (Admits([b.flag] + defined, undefined, flags) <==> b.flag in flags && Admits(defined, undefined, flags))
  {
    assert b.flag in [b.flag] + undefined && b.flag in [b.flag] + defined;
    assert forall f :: f in [b.flag] + undefined <==> f == b.flag || f in undefined;
    assert forall f :: f in [b.flag] + defined <==> f == b.flag || f in defined;
  }

  /** No set of flags meets both lists. */
  predicate Contradictory(defined: seq<string>, undefined: seq<string>) {
    exists f :: f in defined && f in undefined
  }

  predicate SameFlags(a: seq<string>, b: seq<string>) {
    (forall f :: f in a ==> f in b) && (forall f :: f in b ==> f in a)
  }

  lemma AdmitsItself(defined: seq<string>, undefined: seq<string>)
    ensures Contradictory(defined, undefined) <==> forall flags: seq<string> :: !Admits(defined, undefined, flags)
  {
    if !Contradictory(defined, undefined) {
      assert Admits(defined, undefined, defined);
    }
  }

  lemma SameSolutions(p: seq<string>, n: seq<string>, p': seq<string>, n': seq<string>)
    requires !Contradictory(p, n)
    requires forall flags: seq<string> :: Admits(p, n, flags) == Admits(p', n', flags)
    ensures SameFlags(p, p') && SameFlags(n, n')
  {
    assert Admits(p, n, p);
    assert Admits(p', n', p);
    assert !Contradictory(p', n');
    assert Admits(p', n', p');
    assert Admits(p, n, p');
    forall f | f in n ensures f in n' {
      assert !Admits(p, n, p + [f]);
      assert !Admits(p', n', p + [f]);
    }
    forall f | f in n' ensures f in n {
      assert !Admits(p', n', p + [f]);
      assert !Admits(p, n, p + [f]);
    }
  }

  /** The two flags mean what the open blocks mean exactly if the same flags are
      wanted and the same unwanted, or if both ask for the impossible. */
  lemma SameMeaningIff(t: Tags, open: seq<Block>)
    ensures SameMeaning(t, open) <==>
      || (SameFlags(Wanted(open), Listed(t.defined)) && SameFlags(Unwanted(open), Listed(t.undefined)))
      || (Contradictory(Wanted(open), Unwanted(open)) && t.defined.Some? && t.undefined == t.defined)
  {
    var p, n, p', n' := Wanted(open), Unwanted(open), Listed(t.defined), Listed(t.undefined);
    forall flags: seq<string> ensures Active(open, flags) == Admits(p, n, flags) {
      ActiveIsAdmitted(open, flags);
    }
    AdmitsItself(p, n);
    AdmitsItself(p', n');
    assert Contradictory(p', n') <==> t.defined.Some? && t.undefined == t.defined by {
      if t.defined.Some? {
        assert t.defined.value in p';
      }
    }
    if SameMeaning(t, open) {
      forall flags: seq<string> ensures Admits(p, n, flags) == Admits(p', n', flags) {
        assert Active(open, flags) == Admits(p', n', flags);
      }
      if !Contradictory(p, n) {
        SameSolutions(p, n, p', n');
      }
    }
    if SameFlags(p, p') && SameFlags(n, n') {
      assert SameMeaning(t, open);
    }
  }

  /** A nested file that reading accepts and the two passes get wrong: the
      entry stands in the `#else` of an inner block and keeps no trace of the
      outer one, so it stays although A is not defined. */
  lemma NestedBlockLeaks(parse: EntryParser, a: string, b: string, text: string)
    requires parse(text).Some?
    ensures
      var lines := [If(a, false), If(b, false), Else, Entry(text), Endif, Endif];
      Preprocess(lines, [], []) == Some([])
      && Tag(lines, parse, NO_TAGS) == Ok([Tagged(parse(text).value, [], [b])])
      && Filter(Tag(lines, parse, NO_TAGS).value, [], []) == Tag(lines, parse, NO_TAGS).value
  {
    var l := [If(a, false), If(b, false), Else, Entry(text), Endif, Endif];
    var tag := Tagged(parse(text).value, [], [b]);
    LeakDropped(a, b, text);
    assert Tag(l[5..], parse, NO_TAGS) == Ok([]) by {
      assert l[5..] == [l[5]] + [];
    }
    assert Tag(l[4..], parse, Tags(None, Some(b))) == Ok([]) by {
      assert l[4..] == [l[4]] + l[5..];
    }
    assert Tag(l[3..], parse, Tags(None, Some(b))) == Ok([tag]) by {
      assert l[3..] == [l[3]] + l[4..] && [tag] + [] == [tag];
    }
    assert Tag(l[2..], parse, Tags(Some(b), None)) == Ok([tag]) by {
      assert l[2..] == [l[2]] + l[3..];
    }
    assert l == [l[0]] + l[1..] && l[1..] == [l[1]] + l[2..];
    assert Filter([tag], [], []) == [tag] by {
      assert [tag][1..] == [];
    }
  }

  lemma LeakDropped(a: string, b: string, text: string)
    ensures Preprocess([If(a, false), If(b, false), Else, Entry(text), Endif, Endif], [], []) == Some([])
  {
    var l := [If(a, false), If(b, false), Else, Entry(text), Endif, Endif];
    var x, y, z := [Block(a, true, false)], [Block(b, true, false)], [Block(b, false, true)];
    assert [] + x == x && (x + y)[..1] + z == x + z && (x + z)[..1] == x && x[..0] == [];
    assert Preprocess(l[5..], [], x) == Some([]) by {
      assert l[5..] == [l[5]] + [];
    }
    assert Preprocess(l[4..], [], x + z) == Some([]) by {
      assert l[4..] == [l[4]] + l[5..];
    }
    assert Preprocess(l[3..], [], x + z) == Some([]) by {
      assert l[3..] == [l[3]] + l[4..] && (x + z)[0] in x + z;
    }
    assert Preprocess(l[2..], [], x + y) == Some([]) by {
      assert l[2..] == [l[2]] + l[3..];
    }
    assert l == [l[0]] + l[1..] && l[1..] == [l[1]] + l[2..];
  }
}
