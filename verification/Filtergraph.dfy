/**
 The compiler of `ffmpeg.py` from a linear DSP chain to FFmpeg arguments: fresh labels, runs of
 pending simple filters, numbered extra inputs. The emitted graph is interpreted over free
 signal terms, so what is proved of it holds under every meaning of the filters.
 */
module Filtergraph {
  import opened Wrappers

  // ----- the chain (dsp.py)

  datatype ExtraInput = ExtraInput(path: string, filters: string, inputArgs: seq<string>)

  datatype Filter =
    | Plain(text: string)
    | Complex(body: string, inputs: seq<ExtraInput>)

  /** What flows through a pad: an opened file, or a filter applied to signals. */
  datatype Signal =
    | Opened(options: seq<string>, path: string)
    | Applied(filter: string, operands: seq<Signal>)

  const INPUT_READ_ARGS: seq<string> := [
    "-protocol_whitelist",
    "file,hls,http,https,tcp,tls,crypto,pipe,data,fd,rtp,udp,concat",
    "-probesize",
    "8096",
    "-analyzeduration",
    "500000"
  ]

  function Source(x: ExtraInput): Signal {
    Opened(INPUT_READ_ARGS + x.inputArgs, x.path)
  }

  function Sources(xs: seq<ExtraInput>): seq<Signal> {
    seq(|xs|, i requires 0 <= i < |xs| => Source(xs[i]))
  }

  function Prepared(x: ExtraInput): Signal {
    if x.filters == "" then Source(x) else Applied(x.filters, [Source(x)])
  }

  function PreparedAll(xs: seq<ExtraInput>): seq<Signal> {
    seq(|xs|, i requires 0 <= i < |xs| => Prepared(xs[i]))
  }

  /** The chain applied left to right to the main signal. */
  function Meaning(chain: seq<Filter>, main: Signal): Signal {
    if chain == [] then main
    else StepMeaning(chain[|chain| - 1], Meaning(chain[..|chain| - 1], main))
  }

  function StepMeaning(f: Filter, s: Signal): Signal {
    match f
    case Plain(text) => if text == "" then s else Applied(text, [s])
    case Complex(body, inputs) => Applied(body, [s] + PreparedAll(inputs))
  }

  function InputsOf(f: Filter): seq<ExtraInput> {
    match f
    case Plain(_) => []
    case Complex(_, inputs) => inputs
  }

  /** The extra inputs of the chain, in order. */
  function ExtraInputs(chain: seq<Filter>): seq<ExtraInput> {
    if chain == [] then [] else ExtraInputs(chain[..|chain| - 1]) + InputsOf(chain[|chain| - 1])
  }

  /** The inputs by number: the main one is 0, the extra ones follow in order. */
  function Files(chain: seq<Filter>, main: Signal): seq<Signal> {
    [main] + Sources(ExtraInputs(chain))
  }

  /** The inputs numbered from `n` are `xs`, in order. */
  predicate OpensAt(files: seq<Signal>, n: nat, xs: seq<ExtraInput>) {
    n + |xs| <= |files| && forall j | 0 <= j < |xs| :: files[n + j] == Source(xs[j])
  }

  predicate HasComplex(chain: seq<Filter>) {
    exists f | f in chain :: f.Complex?
  }

  // ----- the emitted graph

  datatype Pad = InputPad(index: nat) | LabelPad(id: nat)

  /** `[a][b]f,g[n]`: the first filter takes all the pads, each further one the result before it. */
  datatype Part = Part(pads: seq<Pad>, filters: seq<string>, out: nat)

  datatype FilterArgs =
    | NoFilters
    | Simple(filters: seq<string>)
    | Graph(parts: seq<Part>, mapped: Pad)

  function ApplyAll(filters: seq<string>, s: Signal): Signal {
    if filters == [] then s
    else Applied(filters[|filters| - 1], [ApplyAll(filters[..|filters| - 1], s)])
  }

  type Env = map<nat, Signal>

  predicate Defined(pad: Pad, files: seq<Signal>, env: Env) {
    match pad
    case InputPad(k) => k < |files|
    case LabelPad(n) => n in env
  }

  function PadSignal(pad: Pad, files: seq<Signal>, env: Env): Signal
    requires Defined(pad, files, env)
  {
    match pad
    case InputPad(k) => files[k]
    case LabelPad(n) => env[n]
  }

  predicate AllDefined(pads: seq<Pad>, files: seq<Signal>, env: Env) {
    forall i | 0 <= i < |pads| :: Defined(pads[i], files, env)
  }

  function PadSignals(pads: seq<Pad>, files: seq<Signal>, env: Env): seq<Signal>
    requires AllDefined(pads, files, env)
  {
    seq(|pads|, i requires 0 <= i < |pads| => PadSignal(pads[i], files, env))
  }

  /**
   The signal behind every label; none when a pad is read that no input and no earlier part
   provides, or when a label is defined twice.
   */
  function Interpret(parts: seq<Part>, files: seq<Signal>): Option<Env> {
    if parts == [] then Some(map[]) else
    var part := parts[|parts| - 1];
    match Interpret(parts[..|parts| - 1], files)
    case None => None
    case Some(env) =>
      if part.out !in env && part.filters != [] && AllDefined(part.pads, files, env) then
        var first := Applied(part.filters[0], PadSignals(part.pads, files, env));
        Some(env[part.out := ApplyAll(part.filters[1..], first)])
      else None
  }

  /** Every pad a part reads, as often as it is read. */
  function Reads(parts: seq<Part>): multiset<Pad> {
    if parts == [] then multiset{}
    else Reads(parts[..|parts| - 1]) + multiset(parts[|parts| - 1].pads)
  }

  predicate Exists(pad: Pad, inputs: nat, labels: nat) {
    match pad
    case InputPad(k) => k < inputs
    case LabelPad(n) => 1 <= n <= labels
  }

  /** The parts and the free pads together use each existing pad once, and no other. */
  ghost predicate UsedOnce(parts: seq<Part>, free: seq<Pad>, inputs: nat, labels: nat) {
    forall pad :: (Reads(parts) + multiset(free))[pad] == if Exists(pad, inputs, labels) then 1 else 0
  }

  /** Labels 1..n are those defined, each once, and the free pads carry the given signals. */
  ghost predicate Wired(parts: seq<Part>, labels: nat, inputs: nat, files: seq<Signal>,
                        free: seq<Pad>, signals: seq<Signal>)
  {
    && inputs <= |files|
    && Interpret(parts, files).Some?
    && var env := Interpret(parts, files).value;
    && (forall n :: n in env <==> 1 <= n <= labels)
    && AllDefined(free, files, env) && PadSignals(free, files, env) == signals
    && UsedOnce(parts, free, inputs, labels)
  }

  lemma {:induction false} ApplyAllFromFirst(filters: seq<string>, s: Signal)
    requires filters != []
    ensures ApplyAll(filters[1..], Applied(filters[0], [s])) == ApplyAll(filters, s)
  {
    if |filters| == 1 {
      assert filters[1..] == [] && filters[..0] == [];
    } else {
      var init := filters[..|filters| - 1];
      ApplyAllFromFirst(init, s);
      assert filters[1..][..|filters| - 2] == init[1..];
    }
  }

  /** Opening the next input makes its pad free. */
  lemma OpenStep(parts: seq<Part>, labels: nat, inputs: nat, files: seq<Signal>, free: seq<Pad>, signals: seq<Signal>)
    requires Wired(parts, labels, inputs, files, free, signals) && inputs < |files|
    ensures Wired(parts, labels, inputs + 1, files, free + [InputPad(inputs)], signals + [files[inputs]])
  {
    var free' := free + [InputPad(inputs)];
    assert multiset(free') == multiset(free) + multiset{InputPad(inputs)};
    forall pad ensures (Reads(parts) + multiset(free'))[pad] == if Exists(pad, inputs + 1, labels) then 1 else 0 {
      assert (Reads(parts) + multiset(free))[pad] == if Exists(pad, inputs, labels) then 1 else 0;
    }
  }

  lemma PartStepUse(parts: seq<Part>, labels: nat, inputs: nat, kept: seq<Pad>, part: Part)
    requires UsedOnce(parts, kept + part.pads, inputs, labels) && part.out == labels + 1
    ensures UsedOnce(parts + [part], kept + [LabelPad(part.out)], inputs, labels + 1)
  {
    var more, free := parts + [part], kept + [LabelPad(part.out)];
    assert more[..|more| - 1] == parts;
    assert multiset(kept + part.pads) == multiset(kept) + multiset(part.pads);
    assert multiset(free) == multiset(kept) + multiset{LabelPad(part.out)};
    forall pad ensures (Reads(more) + multiset(free))[pad] == if Exists(pad, inputs, labels + 1) then 1 else 0 {
      assert (Reads(parts) + multiset(kept + part.pads))[pad] == if Exists(pad, inputs, labels) then 1 else 0;
    }
  }

  lemma PadSignalsOfConcat(a: seq<Pad>, b: seq<Pad>, files: seq<Signal>, env: Env)
    ensures AllDefined(a + b, files, env) <==> AllDefined(a, files, env) && AllDefined(b, files, env)
    ensures AllDefined(a + b, files, env) ==>
              PadSignals(a + b, files, env) == PadSignals(a, files, env) + PadSignals(b, files, env)
  {
    assert forall i | 0 <= i < |a| :: (a + b)[i] == a[i];
    assert forall i | 0 <= i < |b| :: (a + b)[|a| + i] == b[i];
  }

  /** More labels do not change what the pads defined before carry. */
  lemma PadSignalsOfMore(pads: seq<Pad>, files: seq<Signal>, env: Env, id: nat, s: Signal)
    requires AllDefined(pads, files, env) && id !in env
    ensures AllDefined(pads, files, env[id := s])
    ensures PadSignals(pads, files, env[id := s]) == PadSignals(pads, files, env)
  {
  }

  /** The pads that are kept and those that are taken carry their own signals. */
  lemma PadSignalsSplit(kept: seq<Pad>, taken: seq<Pad>, files: seq<Signal>, env: Env,
                        keptSignals: seq<Signal>, takenSignals: seq<Signal>)
    requires |kept| == |keptSignals| && AllDefined(kept + taken, files, env)
    requires PadSignals(kept + taken, files, env) == keptSignals + takenSignals
    ensures AllDefined(kept, files, env) && PadSignals(kept, files, env) == keptSignals
    ensures AllDefined(taken, files, env) && PadSignals(taken, files, env) == takenSignals
  {
    hide AllDefined, PadSignals;
    PadSignalsOfConcat(kept, taken, files, env);
    PadSignalsLength(kept, files, env);
    assert keptSignals == (keptSignals + takenSignals)[..|kept|] == PadSignals(kept, files, env);
    assert takenSignals == (keptSignals + takenSignals)[|kept|..] == PadSignals(taken, files, env);
  }

  lemma PadSignalsLength(pads: seq<Pad>, files: seq<Signal>, env: Env)
    requires AllDefined(pads, files, env)
    ensures |PadSignals(pads, files, env)| == |pads|
  {
  }

  lemma InterpretSnoc(parts: seq<Part>, part: Part, files: seq<Signal>)
    requires Interpret(parts, files).Some?
    requires part.out !in Interpret(parts, files).value && part.filters != []
    requires AllDefined(part.pads, files, Interpret(parts, files).value)
    ensures
      var env := Interpret(parts, files).value;
      var first := Applied(part.filters[0], PadSignals(part.pads, files, env));
      Interpret(parts + [part], files) == Some(env[part.out := ApplyAll(part.filters[1..], first)])
  {
    hide AllDefined, PadSignals, ApplyAll;
    assert (parts + [part])[..|parts|] == parts;
  }

  /** The signals of the kept pads and of the new label. */
  lemma KeptAndNew(kept: seq<Pad>, files: seq<Signal>, env: Env, id: nat, s: Signal)
    requires AllDefined(kept, files, env) && id !in env
    ensures AllDefined(kept + [LabelPad(id)], files, env[id := s])
    ensures PadSignals(kept + [LabelPad(id)], files, env[id := s]) == PadSignals(kept, files, env) + [s]
  {
    PadSignalsOfMore(kept, files, env, id, s);
    PadSignalsOfConcat(kept, [LabelPad(id)], files, env[id := s]);
    assert PadSignals([LabelPad(id)], files, env[id := s]) == [s];
  }

  /** A new part takes free pads from the end of the list and frees its own label. */
  lemma PartStep(parts: seq<Part>, labels: nat, inputs: nat, files: seq<Signal>,
                 kept: seq<Pad>, taken: seq<Pad>, keptSignals: seq<Signal>, takenSignals: seq<Signal>,
                 filters: seq<string>)
    requires |kept| == |keptSignals| && filters != []
    requires Wired(parts, labels, inputs, files, kept + taken, keptSignals + takenSignals)
    ensures Wired(parts + [Part(taken, filters, labels + 1)], labels + 1, inputs, files,
                  kept + [LabelPad(labels + 1)],
                  keptSignals + [ApplyAll(filters[1..], Applied(filters[0], takenSignals))])
  {
    hide Interpret, AllDefined, PadSignals, ApplyAll, UsedOnce;
    var env := Interpret(parts, files).value;
    var part := Part(taken, filters, labels + 1);
    PartStepUse(parts, labels, inputs, kept, part);
    PadSignalsSplit(kept, taken, files, env, keptSignals, takenSignals);
    InterpretSnoc(parts, part, files);
    KeptAndNew(kept, files, env, labels + 1, ApplyAll(filters[1..], Applied(filters[0], takenSignals)));
  }

  /** A part that takes every free pad leaves its label as the only one. */
  lemma ClosingStep(parts: seq<Part>, labels: nat, inputs: nat, files: seq<Signal>,
                    taken: seq<Pad>, takenSignals: seq<Signal>, filters: seq<string>)
    requires filters != [] && Wired(parts, labels, inputs, files, taken, takenSignals)
    ensures Wired(parts + [Part(taken, filters, labels + 1)], labels + 1, inputs, files, [LabelPad(labels + 1)],
                  [ApplyAll(filters[1..], Applied(filters[0], takenSignals))])
  {
    assert [] + taken == taken && [] + takenSignals == takenSignals;
    PartStep(parts, labels, inputs, files, [], taken, [], takenSignals, filters);
    var id := LabelPad(labels + 1);
    var signal := ApplyAll(filters[1..], Applied(filters[0], takenSignals));
    assert [] + [id] == [id] && [] + [signal] == [signal];
  }

  lemma NothingPending(pending: seq<string>, s: Signal)
    ensures |pending| == 0 ==> ApplyAll(pending, s) == s && pending == []
  {
  }

  lemma FlushStep(parts: seq<Part>, labels: nat, inputs: nat, files: seq<Signal>,
                  current: Pad, s: Signal, pending: seq<string>)
    requires pending != [] && Wired(parts, labels, inputs, files, [current], [s])
    ensures Wired(parts + [Part([current], pending, labels + 1)], labels + 1, inputs, files, [LabelPad(labels + 1)],
                  [ApplyAll(pending, s)])
  {
    ClosingStep(parts, labels, inputs, files, [current], [s], pending);
    ApplyAllFromFirst(pending, s);
  }

  /** The next extra input is opened and, when it has filters of its own, prepared by a part. */
  lemma ExtraStep(parts: seq<Part>, labels: nat, inputs: nat, files: seq<Signal>,
                  free: seq<Pad>, signals: seq<Signal>, x: ExtraInput)
    requires Wired(parts, labels, inputs, files, free, signals)
    requires inputs < |files| && files[inputs] == Source(x)
    ensures x.filters == "" ==>
              Wired(parts, labels, inputs + 1, files, free + [InputPad(inputs)], signals + [Prepared(x)])
    ensures x.filters != "" ==>
              Wired(parts + [Part([InputPad(inputs)], [x.filters], labels + 1)], labels + 1, inputs + 1, files,
                    free + [LabelPad(labels + 1)], signals + [Prepared(x)])
  {
    OpenStep(parts, labels, inputs, files, free, signals);
    if x.filters != "" {
      PartStep(parts, labels, inputs + 1, files, free, [InputPad(inputs)], signals, [Source(x)], [x.filters]);
      assert ApplyAll([x.filters][1..], Prepared(x)) == Prepared(x);
    }
  }

  lemma {:induction false} ExtraInputsPrefix(chain: seq<Filter>, i: nat)
    requires i <= |chain|
    ensures ExtraInputs(chain[..i]) <= ExtraInputs(chain)
  {
    if i == |chain| {
      assert chain[..i] == chain;
    } else {
      var init := chain[..|chain| - 1];
      ExtraInputsPrefix(init, i);
      assert init[..i] == chain[..i];
    }
  }

  // ----- the compiler

  /** The arguments that open one extra input. */
  function OpenArgs(x: ExtraInput): seq<string> {
    INPUT_READ_ARGS + x.inputArgs + ["-i", x.path]
  }

  function AllOpenArgs(xs: seq<ExtraInput>): seq<string> {
    if xs == [] then [] else OpenArgs(xs[0]) + AllOpenArgs(xs[1..])
  }

  lemma {:induction false} AllOpenArgsConcat(xs: seq<ExtraInput>, ys: seq<ExtraInput>)
    ensures AllOpenArgs(xs + ys) == AllOpenArgs(xs) + AllOpenArgs(ys)
  {
    if xs == [] {
      assert xs + ys == ys;
    } else {
      AllOpenArgsConcat(xs[1..], ys);
      assert (xs + ys)[1..] == xs[1..] + ys;
    }
  }

  lemma SourceListStart(current: Pad, s: Signal, extras: seq<ExtraInput>)
    ensures [current] + [] == [current] && [s] + PreparedAll(extras[..0]) == [s]
    ensures AllOpenArgs(extras[..0]) == []
  {
  }

  lemma InputIsOpen(files: seq<Signal>, n: nat, extras: seq<ExtraInput>, j: nat)
    requires OpensAt(files, n, extras) && j < |extras|
    ensures n + j < |files| && files[n + j] == Source(extras[j])
  {
  }

  lemma BodyStep(parts: seq<Part>, labels: nat, inputs: nat, files: seq<Signal>,
                 taken: seq<Pad>, takenSignals: seq<Signal>, body: string)
    requires Wired(parts, labels, inputs, files, taken, takenSignals)
    ensures Wired(parts + [Part(taken, [body], labels + 1)], labels + 1, inputs, files, [LabelPad(labels + 1)],
                  [Applied(body, takenSignals)])
  {
    hide Wired;
    ClosingStep(parts, labels, inputs, files, taken, takenSignals, [body]);
    assert [body][1..] == [];
  }

  lemma SourceListGrows(current: Pad, sources: seq<Pad>, source: Pad, s: Signal, extras: seq<ExtraInput>, j: nat)
    requires j < |extras|
    ensures [current] + sources + [source] == [current] + (sources + [source])
    ensures [s] + PreparedAll(extras[..j]) + [Prepared(extras[j])] == [s] + PreparedAll(extras[..j + 1])
    ensures AllOpenArgs(extras[..j + 1]) == AllOpenArgs(extras[..j]) + OpenArgs(extras[j])
  {
    assert extras[..j + 1] == extras[..j] + [extras[j]];
    AllOpenArgsConcat(extras[..j], [extras[j]]);
    assert AllOpenArgs([extras[j]]) == OpenArgs(extras[j]);
  }

  // ----- texts that can be told from the brackets and separators around them

  predicate Clean(text: string) {
    text != "" && '[' !in text && ']' !in text && ';' !in text
  }

  predicate CleanTexts(texts: seq<string>) {
    forall t | t in texts :: Clean(t)
  }

  predicate CleanExtras(extras: seq<ExtraInput>) {
    forall x | x in extras :: x.filters == "" || Clean(x.filters)
  }

  predicate CleanFilter(f: Filter) {
    match f
    case Plain(text) => text == "" || Clean(text)
    case Complex(body, inputs) => Clean(body) && CleanExtras(inputs)
  }

  predicate CleanChain(chain: seq<Filter>) {
    forall f | f in chain :: CleanFilter(f)
  }

  predicate CleanParts(parts: seq<Part>) {
    forall p | p in parts :: p.filters != [] && CleanTexts(p.filters)
  }

  predicate CleanArgs(args: FilterArgs) {
    match args
    case NoFilters => true
    case Simple(filters) => filters != [] && CleanTexts(filters)
    case Graph(parts, mapped) => parts != [] && CleanParts(parts)
  }

  /** The variables that the nested functions of the source update. */
  class GraphBuilder {
    var parts: seq<Part>
    var pending: seq<string>
    var current: Pad
    var counter: nat

    constructor ()
      ensures parts == [] && pending == [] && current == InputPad(0) && counter == 0
    {
      parts, pending, current, counter := [], [], InputPad(0), 0;
    }

    method NextLabel() returns (id: nat)
      modifies this`counter
      ensures id == counter == old(counter) + 1
    {
      counter := counter + 1;
      id := counter;
    }

    /** Emit the pending run; the main signal `s` comes out of it as `ApplyAll(pending, s)`. */
    method FlushPending(ghost inputs: nat, ghost files: seq<Signal>, ghost s: Signal)
      requires Wired(parts, counter, inputs, files, [current], [s])
      modifies this
      ensures pending == [] && (old(current).LabelPad? ==> current.LabelPad?)
      ensures Wired(parts, counter, inputs, files, [current], [ApplyAll(old(pending), s)])
      ensures old(CleanParts(parts) && CleanTexts(pending)) ==> CleanParts(parts)
      ensures old(parts) != [] ==> parts != []
    {
      hide Wired, ApplyAll, Clean;
      NothingPending(pending, s);
      if |pending| == 0 { return; }
      FlushStep(parts, counter, inputs, files, current, s, pending);
      var id := NextLabel();
      parts := parts + [Part([current], pending, id)];
      current := LabelPad(id);
      pending := [];
    }

    /** Wire the input just opened; the result is the pad that carries it, prepared. */
    method AddExtra(extra: ExtraInput, nextInput: nat,
                    ghost files: seq<Signal>, ghost free: seq<Pad>, ghost signals: seq<Signal>)
      returns (source: Pad)
      requires nextInput < |files| && files[nextInput] == Source(extra)
      requires Wired(parts, counter, nextInput, files, free, signals)
      modifies this`parts, this`counter
      ensures Wired(parts, counter, nextInput + 1, files, free + [source], signals + [Prepared(extra)])
      ensures old(CleanParts(parts)) && CleanExtras([extra]) ==> CleanParts(parts)
    {
      hide Wired, Prepared, Source, Clean;
      assert extra in [extra];
      ExtraStep(parts, counter, nextInput, files, free, signals, extra);
      source := InputPad(nextInput);
      if extra.filters != "" {
        var id := NextLabel();
        parts := parts + [Part([source], [extra.filters], id)];
        source := LabelPad(id);
      }
    }

    /** Emit a complex fragment: open its inputs, prepare each, then feed them to the body. */
    method AddComplex(body: string, extras: seq<ExtraInput>, nextInput: nat,
                      ghost files: seq<Signal>, ghost s: Signal)
      returns (inputArgs: seq<string>, nextInput': nat)
      requires pending == []
      requires OpensAt(files, nextInput, extras)
      requires Wired(parts, counter, nextInput, files, [current], [s])
      modifies this
      ensures pending == [] && nextInput' == nextInput + |extras| && current.LabelPad?
      ensures inputArgs == AllOpenArgs(extras)
      ensures Wired(parts, counter, nextInput', files, [current], [Applied(body, [s] + PreparedAll(extras))])
      ensures old(CleanParts(parts)) && Clean(body) && CleanExtras(extras) ==> CleanParts(parts)
      ensures parts != []
    {
      hide OpenArgs, Wired, Prepared, PreparedAll, AllOpenArgs, Source, OpensAt, ApplyAll, Clean;
      SourceListStart(current, s, extras);
      var sources: seq<Pad> := [];
      inputArgs, nextInput' := [], nextInput;
      for j := 0 to |extras|
        invariant pending == [] && current == old(current) && nextInput' == nextInput + j
        invariant inputArgs == AllOpenArgs(extras[..j])
        invariant Wired(parts, counter, nextInput', files, [current] + sources, [s] + PreparedAll(extras[..j]))
        invariant old(CleanParts(parts)) && CleanExtras(extras) ==> CleanParts(parts)
      {
        assert extras[j] in extras;
        InputIsOpen(files, nextInput, extras, j);
        inputArgs := inputArgs + OpenArgs(extras[j]);
        var source := AddExtra(extras[j], nextInput', files, [current] + sources, [s] + PreparedAll(extras[..j]));
        nextInput' := nextInput' + 1;
        SourceListGrows(current, sources, source, s, extras, j);
        sources := sources + [source];
      }
      assert extras[..|extras|] == extras;
      BodyStep(parts, counter, nextInput', files, [current] + sources, [s] + PreparedAll(extras), body);
      var id := NextLabel();
      parts := parts + [Part([current] + sources, [body], id)];
      current := LabelPad(id);
    }

    /** One round of the loop over the chain. */
    method AddFilter(item: Filter, nextInput: nat, ghost files: seq<Signal>, ghost s: Signal)
      returns (inputArgs: seq<string>, nextInput': nat, ghost s': Signal)
      requires OpensAt(files, nextInput, InputsOf(item))
      requires Wired(parts, counter, nextInput, files, [current], [s])
      modifies this
      ensures nextInput' == nextInput + |InputsOf(item)| && inputArgs == AllOpenArgs(InputsOf(item))
      ensures ApplyAll(pending, s') == StepMeaning(item, ApplyAll(old(pending), s))
      ensures item.Complex? || old(current).LabelPad? ==> current.LabelPad?
      ensures Wired(parts, counter, nextInput', files, [current], [s'])
      ensures old(CleanParts(parts) && CleanTexts(pending)) && CleanFilter(item) ==>
                CleanParts(parts) && CleanTexts(pending)
      ensures item.Complex? || old(parts) != [] ==> parts != []
    {
      hide Wired, OpensAt, Clean, PreparedAll;
      match item
      case Plain(text) =>
        if text != "" {
          pending := pending + [text];
          assert pending[..|pending| - 1] == old(pending);
        }
        inputArgs, nextInput', s' := [], nextInput, s;
      case Complex(body, extras) =>
        FlushPending(nextInput, files, s);
        inputArgs, nextInput' := AddComplex(body, extras, nextInput, files, ApplyAll(old(pending), s));
        s' := StepMeaning(item, ApplyAll(old(pending), s));
    }
  }

  /** The non-empty plain filters, left to right. */
  function PlainTexts(chain: seq<Filter>): seq<string> {
    if chain == [] then [] else
    PlainTexts(chain[..|chain| - 1]) +
    match chain[|chain| - 1]
    case Plain(text) => if text == "" then [] else [text]
    case Complex(_, _) => []
  }

  lemma {:induction false} PlainMeaning(chain: seq<Filter>, main: Signal)
    requires !HasComplex(chain)
    ensures ApplyAll(PlainTexts(chain), main) == Meaning(chain, main)
    ensures ExtraInputs(chain) == []
  {
    if chain != [] {
      var init := chain[..|chain| - 1];
      assert chain[|chain| - 1] in chain && forall f | f in init :: f in chain;
      PlainMeaning(init, main);
      var text := chain[|chain| - 1].text;
      if text != "" {
        assert PlainTexts(chain)[..|PlainTexts(chain)| - 1] == PlainTexts(init);
      } else {
        assert PlainTexts(chain) == PlainTexts(init);
      }
    }
  }

  /** `args` implements `chain` on a main signal, when the extra inputs are opened after it. */
  ghost predicate Implements(args: FilterArgs, chain: seq<Filter>, main: Signal) {
    match args
    case NoFilters => Meaning(chain, main) == main && ExtraInputs(chain) == []
    case Simple(filters) => filters != [] && ApplyAll(filters, main) == Meaning(chain, main) && ExtraInputs(chain) == []
    case Graph(parts, mapped) =>
      var files := Files(chain, main);
      && mapped.LabelPad?
      && exists labels: nat :: Wired(parts, labels, |files|, files, [mapped], [Meaning(chain, main)])
  }

  method BuildSimple(chain: seq<Filter>) returns (simple: seq<string>)
    requires !HasComplex(chain)
    ensures simple == PlainTexts(chain)
    ensures CleanChain(chain) ==> CleanTexts(simple)
  {
    hide Clean;
    simple := [];
    for i := 0 to |chain|
      invariant simple == PlainTexts(chain[..i])
      invariant CleanChain(chain) ==> CleanTexts(simple)
    {
      assert chain[..i + 1][..i] == chain[..i] && chain[i] in chain;
      if chain[i].text != "" {
        simple := simple + [chain[i].text];
      }
    }
    assert chain[..|chain|] == chain;
  }

  /** What one more filter of the chain adds to its meaning and its inputs. */
  lemma ChainStep(chain: seq<Filter>, i: nat, main: Signal)
    requires i < |chain|
    ensures HasComplex(chain[..i + 1]) <==> HasComplex(chain[..i]) || chain[i].Complex?
    ensures Meaning(chain[..i + 1], main) == StepMeaning(chain[i], Meaning(chain[..i], main))
    ensures ExtraInputs(chain[..i + 1]) == ExtraInputs(chain[..i]) + InputsOf(chain[i])
    ensures OpensAt(Files(chain, main), 1 + |ExtraInputs(chain[..i])|, InputsOf(chain[i]))
    ensures AllOpenArgs(ExtraInputs(chain[..i + 1]))
            == AllOpenArgs(ExtraInputs(chain[..i])) + AllOpenArgs(InputsOf(chain[i]))
  {
    var more := chain[..i + 1];
    assert more[..i] == chain[..i];
    assert forall f :: f in more <==> f in chain[..i] || f == chain[i];
    ExtraInputsPrefix(chain, i + 1);
    AllOpenArgsConcat(ExtraInputs(chain[..i]), InputsOf(chain[i]));
    FilesAt(main, ExtraInputs(chain), ExtraInputs(chain[..i]), InputsOf(chain[i]));
  }

  lemma FilesAt(main: Signal, all: seq<ExtraInput>, before: seq<ExtraInput>, next: seq<ExtraInput>)
    requires before + next <= all
    ensures OpensAt([main] + Sources(all), 1 + |before|, next)
  {
    assert forall j | 0 <= j < |next| :: next[j] == (before + next)[|before| + j];
  }

  lemma StartWired(files: seq<Signal>)
    requires files != []
    ensures Wired([], 0, 1, files, [InputPad(0)], [files[0]])
  {
  }

  lemma ChainStart(chain: seq<Filter>, main: Signal)
    ensures Meaning(chain[..0], main) == main == ApplyAll([], main)
    ensures ExtraInputs(chain[..0]) == [] && AllOpenArgs([]) == [] && !HasComplex(chain[..0])
    ensures CleanParts([]) && CleanTexts([])
    ensures Files(chain, main) != [] && Files(chain, main)[0] == main
  {
  }

  lemma GraphImplements(parts: seq<Part>, labels: nat, chain: seq<Filter>, main: Signal, mapped: Pad)
    requires Wired(parts, labels, |Files(chain, main)|, Files(chain, main), [mapped], [Meaning(chain, main)])
    requires mapped.LabelPad?
    ensures Implements(Graph(parts, mapped), chain, main)
  {
    hide Wired;
  }

  lemma AllFiles(chain: seq<Filter>, main: Signal)
    ensures |Files(chain, main)| == 1 + |ExtraInputs(chain)|
  {
  }

  method BuildGraph(chain: seq<Filter>, ghost main: Signal) returns (inputArgs: seq<string>, args: FilterArgs)
    requires HasComplex(chain)
    ensures args.Graph? && Implements(args, chain, main)
    ensures inputArgs == AllOpenArgs(ExtraInputs(chain))
    ensures CleanChain(chain) ==> CleanArgs(args)
  {
    hide Wired, Meaning, ApplyAll, ExtraInputs, AllOpenArgs, HasComplex, Implements, Files, OpensAt,
         CleanParts, CleanTexts, CleanFilter;
    var builder := new GraphBuilder();
    var nextInput := 1;
    inputArgs := [];
    ghost var files := Files(chain, main);
    ghost var s := main;
    ChainStart(chain, main);
    StartWired(files);
    for i := 0 to |chain|
      invariant nextInput == 1 + |ExtraInputs(chain[..i])|
      invariant inputArgs == AllOpenArgs(ExtraInputs(chain[..i]))
      invariant Wired(builder.parts, builder.counter, nextInput, files, [builder.current], [s])
      invariant ApplyAll(builder.pending, s) == Meaning(chain[..i], main)
      invariant HasComplex(chain[..i]) ==> builder.current.LabelPad? && builder.parts != []
      invariant CleanChain(chain) ==> CleanParts(builder.parts) && CleanTexts(builder.pending)
    {
      ChainStep(chain, i, main);
      assert chain[i] in chain;
      var more;
      more, nextInput, s := builder.AddFilter(chain[i], nextInput, files, s);
      inputArgs := inputArgs + more;
    }
    assert chain[..|chain|] == chain;
    builder.FlushPending(nextInput, files, s);
    AllFiles(chain, main);
    GraphImplements(builder.parts, builder.counter, chain, main, builder.current);
    args := Graph(builder.parts, builder.current);
  }

  method BuildFiltergraphArgs(chain: seq<Filter>, ghost main: Signal) returns (inputArgs: seq<string>, args: FilterArgs)
    ensures args.Graph? <==> HasComplex(chain)
    ensures Implements(args, chain, main)
    ensures inputArgs == AllOpenArgs(ExtraInputs(chain))
    ensures CleanChain(chain) ==> CleanArgs(args)
  {
    if HasComplex(chain) {
      inputArgs, args := BuildGraph(chain, main);
    } else {
      var simple := BuildSimple(chain);
      PlainMeaning(chain, main);
      inputArgs, args := [], if simple == [] then NoFilters else Simple(simple);
    }
  }
}
