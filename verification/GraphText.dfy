/**
 The text of the filter arguments of `_build_filtergraph_args`, as FFmpeg gets it, and a reader of that
 text: bracketed pads, filters separated by commas, parts separated by semicolons.
 */
module GraphText {
  import opened Wrappers
  import opened Filtergraph

  // ----- writing

  function Decimal(n: nat): (s: string)
    ensures |s| > 0 && forall i | 0 <= i < |s| :: '0' <= s[i] <= '9'
  {
    if n < 10 then [('0' as int + n) as char] else Decimal(n / 10) + [('0' as int + n % 10) as char]
  }

  function Join(words: seq<string>, separator: char): string {
    if words == [] then ""
    else if |words| == 1 then words[0]
    else words[0] + [separator] + Join(words[1..], separator)
  }

  function RenderPad(pad: Pad): string {
    match pad
    case InputPad(k) => "[" + Decimal(k) + ":a]"
    case LabelPad(n) => "[dsp" + Decimal(n) + "]"
  }

  function RenderPads(pads: seq<Pad>): string {
    if pads == [] then "" else RenderPad(pads[0]) + RenderPads(pads[1..])
  }

  function RenderPart(part: Part): string {
    RenderPads(part.pads) + Join(part.filters, ',') + RenderPad(LabelPad(part.out))
  }

  function RenderParts(parts: seq<Part>): seq<string> {
    seq(|parts|, i requires 0 <= i < |parts| => RenderPart(parts[i]))
  }

  function Render(args: FilterArgs): seq<string> {
    match args
    case NoFilters => []
    case Simple(filters) => ["-af", Join(filters, ',')]
    case Graph(parts, mapped) =>
      ["-filter_complex", Join(RenderParts(parts), ';'), "-map", RenderPad(mapped)]
  }

  // ----- reading

  function ReadDigit(c: char): Option<nat> {
    if '0' <= c <= '9' then Some(c as int - '0' as int) else None
  }

  function ReadNumber(s: string): Option<nat> {
    if s == "" then None
    else if |s| == 1 then ReadDigit(s[0])
    else
      match (ReadNumber(s[..|s| - 1]), ReadDigit(s[|s| - 1]))
      case (Some(n), Some(d)) => Some(10 * n + d)
      case _ => None
  }

  /** What stands in a pair of brackets: `<number>:a` or `dsp<number>`. */
  function ReadLabel(s: string): Option<Pad> {
    if |s| > 2 && s[|s| - 2..] == ":a" then
      match ReadNumber(s[..|s| - 2]) case None => None case Some(k) => Some(InputPad(k))
    else if |s| > 3 && s[..3] == "dsp" then
      match ReadNumber(s[3..]) case None => None case Some(n) => Some(LabelPad(n))
    else None
  }

  /** Up to the first occurrence of a character, or to the end. */
  function Until(s: string, c: char): (i: nat)
    ensures i <= |s| && (i < |s| ==> s[i] == c) && forall j | 0 <= j < i :: s[j] != c
  {
    if s == "" || s[0] == c then 0 else 1 + Until(s[1..], c)
  }

  function ReadPads(s: string): Option<(seq<Pad>, string)> {
    if s == "" || s[0] != '[' then Some(([], s))
    else
      var i := Until(s, ']');
      if i == 0 || i == |s| then None
      else
        match (ReadLabel(s[1..i]), ReadPads(s[i + 1..]))
        case (Some(pad), Some((pads, rest))) => Some(([pad] + pads, rest))
        case _ => None
  }

  function SplitOn(s: string, c: char): (r: seq<string>)
    ensures |r| > 0
  {
    if s == "" then [""]
    else
      Prepend(s[0], SplitOn(s[1..], c), c)
  }

  /** Pads, then text up to the next bracket, then one text. */
  function ReadPart(s: string): Option<Part> {
    match ReadPads(s)
    case None => None
    case Some((pads, rest)) =>
      var i := Until(rest, '[');
      match ReadPads(rest[i..])
      case None => None
      case Some((outs, end)) =>
        if |outs| == 1 && outs[0].LabelPad? && end == "" then Some(Part(pads, SplitOn(rest[..i], ','), outs[0].id))
        else None
  }

  function ReadParts(texts: seq<string>): Option<seq<Part>> {
    if texts == [] then Some([])
    else
      match (ReadPart(texts[0]), ReadParts(texts[1..]))
      case (Some(part), Some(parts)) => Some([part] + parts)
      case _ => None
  }

  /** The filter arguments at the start of the rest of a command. */
  function ReadArgs(args: seq<string>): Option<FilterArgs> {
    if |args| >= 4 && args[0] == "-filter_complex" && args[2] == "-map" then
      match (ReadParts(SplitOn(args[1], ';')), ReadPads(args[3]))
      case (Some(parts), Some((pads, rest))) =>
        if |pads| == 1 && rest == "" then Some(Graph(parts, pads[0])) else None
      case _ => None
    else if |args| >= 2 && args[0] == "-af" then Some(Simple(SplitOn(args[1], ',')))
    else Some(NoFilters)
  }

  // ----- numbers and texts are read back

  lemma {:induction false} DecimalIsRead(n: nat)
    ensures ReadNumber(Decimal(n)) == Some(n)
  {
    if n >= 10 {
      DecimalIsRead(n / 10);
      var s := Decimal(n);
      assert s[..|s| - 1] == Decimal(n / 10);
    }
  }

  function LabelText(pad: Pad): string {
    match pad
    case InputPad(k) => Decimal(k) + ":a"
    case LabelPad(n) => "dsp" + Decimal(n)
  }

  lemma LabelIsRead(pad: Pad)
    ensures ReadLabel(LabelText(pad)) == Some(pad)
    ensures forall c | c in LabelText(pad) :: c != '[' && c != ']' && c != ';'
  {
    var s := LabelText(pad);
    match pad
    case InputPad(k) =>
      DecimalIsRead(k);
      assert s[..|s| - 2] == Decimal(k) && s[|s| - 2..] == ":a";
    case LabelPad(n) =>
      DecimalIsRead(n);
      assert s[..3] == "dsp" && s[3..] == Decimal(n);
      assert '0' <= s[|s| - 1] <= '9' && s[|s| - 2..][1] == s[|s| - 1];
  }

  lemma PadText(pad: Pad)
    ensures RenderPad(pad) == "[" + LabelText(pad) + "]"
  {
  }

  lemma {:induction false} UntilFinds(a: string, c: char, b: string)
    requires c !in a
    ensures Until(a + [c] + b, c) == |a|
    ensures Until(a, c) == |a|
  {
    if a != "" {
      UntilFinds(a[1..], c, b);
      assert (a + [c] + b)[1..] == a[1..] + [c] + b;
    }
  }

  lemma PadIsRead(pad: Pad, rest: string)
    ensures ReadPads(RenderPad(pad) + rest) ==
            match ReadPads(rest) case None => None case Some((pads, end)) => Some(([pad] + pads, end))
  {
    hide ReadLabel, LabelText;
    LabelIsRead(pad);
    PadText(pad);
    var s, text := RenderPad(pad) + rest, LabelText(pad);
    assert s == ("[" + text) + [']'] + rest;
    UntilFinds("[" + text, ']', rest);
    assert s[1..1 + |text|] == text && s[|text| + 2..] == rest;
  }

  lemma {:induction false} PadsAreRead(pads: seq<Pad>, rest: string)
    requires rest == "" || rest[0] != '['
    ensures ReadPads(RenderPads(pads) + rest) == Some((pads, rest))
  {
    hide RenderPad;
    if pads == [] {
      assert RenderPads(pads) + rest == rest;
    } else {
      PadsAreRead(pads[1..], rest);
      PadIsRead(pads[0], RenderPads(pads[1..]) + rest);
      assert RenderPads(pads) + rest == RenderPad(pads[0]) + (RenderPads(pads[1..]) + rest);
      assert [pads[0]] + pads[1..] == pads;
    }
  }

  // ----- joined texts are split again

  /** The texts of a text with one more character in front. */
  function Prepend(first: char, texts: seq<string>, c: char): seq<string>
    requires |texts| > 0
  {
    if first == c then [""] + texts else [[first] + texts[0]] + texts[1..]
  }

  lemma SplitStep(first: char, s: string, c: char)
    ensures SplitOn([first] + s, c) == Prepend(first, SplitOn(s, c), c)
  {
    assert ([first] + s)[1..] == s;
  }

  lemma SplitEmpty(c: char)
    ensures SplitOn("", c) == [""]
  {
  }

  lemma SplitStepConcat(first: char, a: seq<string>, b: seq<string>, c: char)
    requires |a| > 0
    ensures Prepend(first, a + b, c) == Prepend(first, a, c) + b
  {
    assert (a + b)[0] == a[0] && (a + b)[1..] == a[1..] + b;
    assert first != c ==> [[first] + a[0]] + (a[1..] + b) == [[first] + a[0]] + a[1..] + b;
    assert first == c ==> [""] + (a + b) == [""] + a + b;
  }

  lemma {:induction false} SplitConcat(a: string, c: char, b: string)
    ensures SplitOn(a + [c] + b, c) == SplitOn(a, c) + SplitOn(b, c)
  {
    hide SplitOn;
    if a == "" {
      SplitStep(c, b, c);
      SplitEmpty(c);
      assert a + [c] + b == [c] + b;
    } else {
      SplitConcat(a[1..], c, b);
      SplitStep(a[0], a[1..] + [c] + b, c);
      SplitStep(a[0], a[1..], c);
      assert a + [c] + b == [a[0]] + (a[1..] + [c] + b);
      assert a == [a[0]] + a[1..];
      SplitStepConcat(a[0], SplitOn(a[1..], c), SplitOn(b, c), c);
    }
  }

  lemma {:induction false} SplitNothing(a: string, c: char)
    requires c !in a
    ensures SplitOn(a, c) == [a]
  {
    if a != "" {
      SplitNothing(a[1..], c);
      assert [a[0]] + a[1..] == a;
    }
  }

  function SplitAll(words: seq<string>, c: char): seq<string> {
    if words == [] then [] else SplitOn(words[0], c) + SplitAll(words[1..], c)
  }

  lemma {:induction false} SplitOfJoin(words: seq<string>, c: char)
    requires words != []
    ensures SplitOn(Join(words, c), c) == SplitAll(words, c)
  {
    if |words| > 1 {
      SplitOfJoin(words[1..], c);
      SplitConcat(words[0], c, Join(words[1..], c));
    } else {
      assert SplitAll(words[1..], c) == [];
    }
  }

  lemma {:induction false} SplitAllNothing(words: seq<string>, c: char)
    requires forall w | w in words :: c !in w
    ensures SplitAll(words, c) == words
  {
    if words != [] {
      assert words[0] in words;
      SplitNothing(words[0], c);
      SplitAllNothing(words[1..], c);
    }
  }

  // ----- parts are read back, with their filters taken apart at commas

  function ApartPart(part: Part): Part {
    part.(filters := SplitAll(part.filters, ','))
  }

  function ApartParts(parts: seq<Part>): seq<Part> {
    seq(|parts|, i requires 0 <= i < |parts| => ApartPart(parts[i]))
  }

  function ApartArgs(args: FilterArgs): FilterArgs {
    match args
    case NoFilters => NoFilters
    case Simple(filters) => Simple(SplitAll(filters, ','))
    case Graph(parts, mapped) => Graph(ApartParts(parts), mapped)
  }

  lemma {:induction false} JoinIsClean(texts: seq<string>)
    requires texts != [] && CleanTexts(texts)
    ensures Clean(Join(texts, ','))
  {
    assert texts[0] in texts;
    if |texts| > 1 {
      JoinIsClean(texts[1..]);
    }
  }

  lemma {:induction false} PadsAreClean(pads: seq<Pad>)
    ensures ';' !in RenderPads(pads)
  {
    if pads != [] {
      PadsAreClean(pads[1..]);
      LabelIsRead(pads[0]);
      PadText(pads[0]);
      hide RenderPad, LabelText;
    }
  }

  lemma PartIsRead(part: Part)
    requires part.filters != [] && CleanTexts(part.filters)
    ensures ReadPart(RenderPart(part)) == Some(ApartPart(part))
    ensures ';' !in RenderPart(part)
  {
    hide ReadPads, RenderPads, RenderPad, Join, SplitOn, SplitAll, CleanTexts, LabelText;
    var text, out := Join(part.filters, ','), LabelPad(part.out);
    JoinIsClean(part.filters);
    PadText(out);
    LabelIsRead(out);
    PadsAreClean(part.pads);
    var rest := text + RenderPad(out);
    assert rest == text + ['['] + (LabelText(out) + "]");
    assert RenderPart(part) == RenderPads(part.pads) + rest;
    PadsAreRead(part.pads, rest);
    UntilFinds(text, '[', LabelText(out) + "]");
    assert rest[..|text|] == text && rest[|text|..] == RenderPad(out);
    OnePadIsRead(out);
    SplitOfJoin(part.filters, ',');
  }

  lemma OnePadIsRead(pad: Pad)
    ensures ReadPads(RenderPad(pad)) == Some(([pad], ""))
  {
    hide RenderPad;
    PadIsRead(pad, "");
    assert RenderPad(pad) + "" == RenderPad(pad) && [pad] + [] == [pad];
  }

  lemma NoPartsAreRead()
    ensures ReadParts([]) == Some([])
  {
  }

  lemma FirstPartIsRead(text: string, texts: seq<string>)
    requires ReadPart(text).Some? && ReadParts(texts).Some?
    ensures ReadParts([text] + texts) == Some([ReadPart(text).value] + ReadParts(texts).value)
  {
    hide ReadPart;
    assert ([text] + texts)[1..] == texts;
  }

  lemma {:induction false} PartsAreRead(parts: seq<Part>)
    requires CleanParts(parts)
    ensures ReadParts(RenderParts(parts)) == Some(ApartParts(parts))
  {
    hide ReadPart, RenderPart, CleanTexts, ApartPart, ReadParts;
    if parts == [] {
      NoPartsAreRead();
      assert RenderParts(parts) == [] && ApartParts(parts) == [];
    } else {
      assert parts[0] in parts;
      PartIsRead(parts[0]);
      PartsAreRead(parts[1..]);
      assert RenderParts(parts) == [RenderPart(parts[0])] + RenderParts(parts[1..]);
      FirstPartIsRead(RenderPart(parts[0]), RenderParts(parts[1..]));
      assert ApartParts(parts) == [ApartPart(parts[0])] + ApartParts(parts[1..]);
    }
  }

  lemma GraphIsSplit(parts: seq<Part>)
    requires parts != [] && CleanParts(parts)
    ensures SplitOn(Join(RenderParts(parts), ';'), ';') == RenderParts(parts)
  {
    hide Join, SplitOn, SplitAll, RenderPart, CleanTexts;
    SplitOfJoin(RenderParts(parts), ';');
    forall w | w in RenderParts(parts) ensures ';' !in w {
      var i :| 0 <= i < |parts| && w == RenderPart(parts[i]);
      assert parts[i] in parts;
      PartIsRead(parts[i]);
    }
    SplitAllNothing(RenderParts(parts), ';');
  }

  /** What follows the filter arguments cannot be taken for them. */
  predicate NoFilterArgs(rest: seq<string>) {
    rest == [] || (rest[0] != "-af" && rest[0] != "-filter_complex")
  }

  /** The arguments written are the arguments read, their filters taken apart at commas. */
  lemma ArgsAreRead(args: FilterArgs, rest: seq<string>)
    requires CleanArgs(args) && NoFilterArgs(rest)
    ensures ReadArgs(Render(args) + rest) == Some(ApartArgs(args))
  {
    hide Join, SplitOn, SplitAll, RenderParts, ReadParts, ReadPads, RenderPad, CleanTexts, ApartParts;
    match args
    case NoFilters =>
      assert Render(args) + rest == rest;
    case Simple(filters) =>
      SplitOfJoin(filters, ',');
    case Graph(parts, mapped) =>
      GraphIsSplit(parts);
      PartsAreRead(parts);
      OnePadIsRead(mapped);
  }

  // ----- and mean the same

  /** A signal with each filter text taken apart at its commas: FFmpeg applies them one after the other. */
  function Apart(s: Signal): Signal {
    match s
    case Opened(_, _) => s
    case Applied(text, operands) =>
      var filters := SplitOn(text, ',');
      ApplyAll(filters[1..], Applied(filters[0], seq(|operands|, i requires 0 <= i < |operands| => Apart(operands[i]))))
  }

  function ApartAll(signals: seq<Signal>): seq<Signal> {
    seq(|signals|, i requires 0 <= i < |signals| => Apart(signals[i]))
  }

  lemma {:induction false} ApplyAllConcat(a: seq<string>, b: seq<string>, s: Signal)
    ensures ApplyAll(a + b, s) == ApplyAll(b, ApplyAll(a, s))
  {
    if b == [] {
      assert a + b == a;
    } else {
      ApplyAllConcat(a, b[..|b| - 1], s);
      assert (a + b)[..|a + b| - 1] == a + b[..|b| - 1];
    }
  }

  lemma SplitAllEmpty(c: char)
    ensures SplitAll([], c) == []
  {
  }

  lemma SplitAllCons(first: string, rest: seq<string>, c: char)
    ensures SplitAll([first] + rest, c) == SplitOn(first, c) + SplitAll(rest, c)
  {
    hide SplitOn;
    assert ([first] + rest)[1..] == rest;
  }

  lemma {:induction false} SplitAllSnoc(words: seq<string>, last: string, c: char)
    ensures SplitAll(words + [last], c) == SplitAll(words, c) + SplitOn(last, c)
  {
    hide SplitOn, SplitAll;
    SplitAllEmpty(c);
    if words == [] {
      SplitAllCons(last, [], c);
      assert words + [last] == [last] == [last] + [];
      assert SplitAll([], c) + SplitOn(last, c) == SplitOn(last, c) == SplitOn(last, c) + SplitAll([], c);
    } else {
      var first, rest := words[0], words[1..];
      SplitAllSnoc(rest, last, c);
      SplitAllCons(first, rest, c);
      SplitAllCons(first, rest + [last], c);
      assert words == [first] + rest;
      assert words + [last] == [first] + (rest + [last]);
      var a, b, d := SplitOn(first, c), SplitAll(rest, c), SplitOn(last, c);
      assert a + (b + d) == a + b + d;
    }
  }

  lemma ApartApplied(text: string, s: Signal)
    ensures Apart(Applied(text, [s])) == ApplyAll(SplitOn(text, ','), Apart(s))
  {
    var filters := SplitOn(text, ',');
    hide SplitOn, ApplyAll;
    assert seq(1, i requires 0 <= i < 1 => Apart([s][i])) == [Apart(s)];
    ApplyAllFromFirst(filters, Apart(s));
  }

  lemma {:induction false} ApartApplyAll(filters: seq<string>, s: Signal)
    ensures Apart(ApplyAll(filters, s)) == ApplyAll(SplitAll(filters, ','), Apart(s))
  {
    if filters != [] {
      var init, last := filters[..|filters| - 1], filters[|filters| - 1];
      ApartApplyAll(init, s);
      ApartApplied(last, ApplyAll(init, s));
      SplitAllSnoc(init, last, ',');
      assert filters == init + [last];
      ApplyAllConcat(SplitAll(init, ','), SplitOn(last, ','), Apart(s));
      hide SplitOn, Apart;
    }
  }

  /** A part computes the same from the filters taken apart. */
  lemma ApartPartSignal(filters: seq<string>, operands: seq<Signal>)
    requires filters != []
    ensures var fs := SplitAll(filters, ',');
            && fs != []
            && ApplyAll(fs[1..], Applied(fs[0], ApartAll(operands)))
               == Apart(ApplyAll(filters[1..], Applied(filters[0], operands)))
  {
    var first, rest := SplitOn(filters[0], ','), SplitAll(filters[1..], ',');
    assert Apart(Applied(filters[0], operands)) == ApplyAll(first[1..], Applied(first[0], ApartAll(operands)));
    hide SplitOn, Apart, ApplyAll;
    assert SplitAll(filters, ',') == first + rest;
    assert (first + rest)[0] == first[0] && (first + rest)[1..] == first[1..] + rest;
    ApplyAllConcat(first[1..], rest, Applied(first[0], ApartAll(operands)));
    ApartApplyAll(filters[1..], Applied(filters[0], operands));
  }

  predicate AllOpened(files: seq<Signal>) {
    forall f | f in files :: f.Opened?
  }

  function ApartEnv(env: Env): Env {
    map n | n in env :: Apart(env[n])
  }

  lemma ApartPads(pads: seq<Pad>, files: seq<Signal>, env: Env)
    requires AllOpened(files)
    ensures AllDefined(pads, files, ApartEnv(env)) <==> AllDefined(pads, files, env)
    ensures AllDefined(pads, files, env) ==>
              PadSignals(pads, files, ApartEnv(env)) == ApartAll(PadSignals(pads, files, env))
  {
    assert forall k | 0 <= k < |files| :: files[k] in files && Apart(files[k]) == files[k];
    hide Apart;
  }

  lemma {:induction false} InterpretApart(parts: seq<Part>, files: seq<Signal>)
    requires AllOpened(files) && Interpret(parts, files).Some?
    ensures Interpret(ApartParts(parts), files) == Some(ApartEnv(Interpret(parts, files).value))
    ensures Reads(ApartParts(parts)) == Reads(parts)
  {
    if parts == [] {
      assert ApartEnv(map[]) == map[];
    } else {
      var init, part := parts[..|parts| - 1], parts[|parts| - 1];
      InterpretApart(init, files);
      var env := Interpret(init, files).value;
      assert ApartParts(parts)[..|parts| - 1] == ApartParts(init);
      ApartPads(part.pads, files, env);
      ApartPartSignal(part.filters, PadSignals(part.pads, files, env));
      var first := Applied(part.filters[0], PadSignals(part.pads, files, env));
      ApartEnvUpdate(env, part.out, ApplyAll(part.filters[1..], first));
      hide Apart, ApartEnv, PadSignals, AllDefined, ApplyAll, SplitAll;
    }
  }

  lemma ApartEnvUpdate(env: Env, id: nat, s: Signal)
    ensures ApartEnv(env[id := s]) == ApartEnv(env)[id := Apart(s)]
    ensures id in ApartEnv(env) <==> id in env
  {
    hide Apart;
  }

  lemma WiredApart(parts: seq<Part>, labels: nat, inputs: nat, files: seq<Signal>, free: seq<Pad>, signals: seq<Signal>)
    requires AllOpened(files) && Wired(parts, labels, inputs, files, free, signals)
    ensures Wired(ApartParts(parts), labels, inputs, files, free, ApartAll(signals))
  {
    hide Interpret, Apart, PadSignals, AllDefined, ApartParts, Reads;
    InterpretApart(parts, files);
    ApartPads(free, files, Interpret(parts, files).value);
  }

  /** The arguments, as read, carry the meaning of the chain, each of its texts taken apart. */
  ghost predicate Carries(args: FilterArgs, chain: seq<Filter>, main: Signal) {
    var meaning := Apart(Meaning(chain, main));
    match args
    case NoFilters => meaning == main && ExtraInputs(chain) == []
    case Simple(filters) => filters != [] && ApplyAll(filters, main) == meaning && ExtraInputs(chain) == []
    case Graph(parts, mapped) =>
      var files := Files(chain, main);
      mapped.LabelPad? && exists n: nat :: Wired(parts, n, |files|, files, [mapped], [meaning])
  }

  lemma FilesAreOpened(chain: seq<Filter>, main: Signal)
    requires main.Opened?
    ensures AllOpened(Files(chain, main))
  {
  }

  lemma ApartCarries(args: FilterArgs, chain: seq<Filter>, main: Signal)
    requires main.Opened? && Implements(args, chain, main)
    ensures Carries(ApartArgs(args), chain, main)
  {
    hide Wired, Files, ExtraInputs, ApplyAll, SplitAll, Meaning, ApartParts;
    assert Apart(main) == main;
    match args
    case NoFilters =>
    case Simple(filters) =>
      ApartApplyAll(filters, main);
      SplitAllSome(filters);
    case Graph(parts, mapped) =>
      FilesAreOpened(chain, main);
      var files := Files(chain, main);
      var n: nat :| Wired(parts, n, |files|, files, [mapped], [Meaning(chain, main)]);
      WiredApart(parts, n, |files|, files, [mapped], [Meaning(chain, main)]);
      assert ApartAll([Meaning(chain, main)]) == [Apart(Meaning(chain, main))];
  }

  lemma SplitAllSome(filters: seq<string>)
    requires filters != []
    ensures SplitAll(filters, ',') != []
  {
  }

  // ----- without commas nothing is taken apart

  predicate NoCommas(chain: seq<Filter>) {
    forall f | f in chain ::
      match f
      case Plain(text) => ',' !in text
      case Complex(body, inputs) => ',' !in body && forall x | x in inputs :: ',' !in x.filters
  }

  lemma PreparedIsWhole(x: ExtraInput)
    requires ',' !in x.filters
    ensures Apart(Prepared(x)) == Prepared(x)
  {
    if x.filters != "" {
      ApartApplied(x.filters, Source(x));
      SplitNothing(x.filters, ',');
      ApplyOne(x.filters, Source(x));
    }
  }

  lemma ApplyOne(text: string, s: Signal)
    ensures ApplyAll([text], s) == Applied(text, [s])
  {
    assert [text][..0] == [];
  }

  lemma {:induction false} NothingApart(chain: seq<Filter>, main: Signal)
    requires NoCommas(chain) && main.Opened?
    ensures Apart(Meaning(chain, main)) == Meaning(chain, main)
  {
    if chain != [] {
      var init, last := chain[..|chain| - 1], chain[|chain| - 1];
      assert last in chain && forall f | f in init :: f in chain;
      NothingApart(init, main);
      var before := Meaning(init, main);
      match last
      case Plain(text) =>
        if text != "" {
          ApartApplied(text, before);
          SplitNothing(text, ',');
          ApplyOne(text, before);
        }
      case Complex(body, inputs) =>
        SplitNothing(body, ',');
        var operands := [before] + PreparedAll(inputs);
        forall i | 0 <= i < |operands| ensures Apart(operands[i]) == operands[i] {
          if i > 0 {
            assert inputs[i - 1] in inputs;
            PreparedIsWhole(inputs[i - 1]);
          }
        }
        assert ApartAll(operands) == operands;
    }
  }
}
