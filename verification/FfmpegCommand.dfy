/**
 The whole command line of `get_ffmpeg_args`: the main input, the extra inputs of the chain, then the
 filter arguments. Both what the command opens and what it asks of the graph are read from its words.
 */
module FfmpegCommand {
  import opened Wrappers
  import opened Filtergraph
  import opened GraphText

  /** The files a command opens, in order: `-i` opens the path after it with the options since the last one. */
  function OpenedBy(args: seq<string>, options: seq<string>): seq<Signal> {
    if args == [] then []
    else if args[0] == "-i" && 1 < |args| then [Opened(options, args[1])] + OpenedBy(args[2..], [])
    else OpenedBy(args[1..], options + [args[0]])
  }

  lemma {:induction false} OptionsOpenNothing(words: seq<string>, rest: seq<string>, options: seq<string>)
    requires "-i" !in words
    ensures OpenedBy(words + rest, options) == OpenedBy(rest, options + words)
  {
    if words == [] {
      assert words + rest == rest && options + words == options;
    } else {
      assert (words + rest)[0] == words[0] && words[0] in words;
      assert (words + rest)[1..] == words[1..] + rest;
      OptionsOpenNothing(words[1..], rest, options + [words[0]]);
      assert options + [words[0]] + words[1..] == options + words;
    }
  }

  lemma GroupOpens(words: seq<string>, path: string, rest: seq<string>)
    requires "-i" !in words
    ensures OpenedBy(words + ["-i", path] + rest, []) == [Opened(words, path)] + OpenedBy(rest, [])
  {
    var tail := ["-i", path] + rest;
    assert words + ["-i", path] + rest == words + tail && [] + words == words;
    OptionsOpenNothing(words, tail, []);
    assert tail[2..] == rest;
  }

  lemma ExtraOpens(x: ExtraInput, rest: seq<string>)
    requires "-i" !in x.inputArgs
    ensures OpenedBy(OpenArgs(x) + rest, []) == [Source(x)] + OpenedBy(rest, [])
  {
    GroupOpens(INPUT_READ_ARGS + x.inputArgs, x.path, rest);
  }

  lemma {:induction false} ExtrasOpen(xs: seq<ExtraInput>, rest: seq<string>)
    requires forall x | x in xs :: "-i" !in x.inputArgs
    ensures OpenedBy(AllOpenArgs(xs) + rest, []) == Sources(xs) + OpenedBy(rest, [])
  {
    hide OpenArgs, Source, OpenedBy;
    if xs == [] {
      assert AllOpenArgs(xs) + rest == rest;
    } else {
      ExtrasOpen(xs[1..], rest);
      ExtraOpens(xs[0], AllOpenArgs(xs[1..]) + rest);
      assert AllOpenArgs(xs) + rest == OpenArgs(xs[0]) + (AllOpenArgs(xs[1..]) + rest);
      assert Sources(xs) == [Source(xs[0])] + Sources(xs[1..]);
    }
  }

  /**
   What the words of a command mean: some prefix opens the main file and the extra ones in order, and
   the filter arguments read from the rest carry the chain over those files.
   */
  ghost predicate CommandCarries(command: seq<string>, chain: seq<Filter>, main: Signal) {
    exists n | 0 <= n <= |command| ::
      && OpenedBy(command[..n], []) == Files(chain, main)
      && ReadArgs(command[n..]).Some?
      && Carries(ReadArgs(command[n..]).value, chain, main)
  }

  lemma WordsCarry(inputs: seq<string>, args: FilterArgs, outputArgs: seq<string>, chain: seq<Filter>, main: Signal)
    requires main.Opened? && Implements(args, chain, main)
    requires CleanArgs(args) && NoFilterArgs(outputArgs)
    requires OpenedBy(inputs, []) == Files(chain, main)
    ensures CommandCarries(inputs + (Render(args) + outputArgs), chain, main)
  {
    hide Carries, ReadArgs, Implements, CleanArgs, OpenedBy, Files, Render;
    ArgsAreRead(args, outputArgs);
    ApartCarries(args, chain, main);
    var command := inputs + (Render(args) + outputArgs);
    assert command[..|inputs|] == inputs && command[|inputs|..] == Render(args) + outputArgs;
  }

  lemma InputsOpen(words: seq<string>, path: string, chain: seq<Filter>, rest: seq<string>)
    requires "-i" !in words
    requires forall x | x in ExtraInputs(chain) :: "-i" !in x.inputArgs
    ensures OpenedBy(words + ["-i", path] + AllOpenArgs(ExtraInputs(chain)) + rest, [])
            == Files(chain, Opened(words, path)) + OpenedBy(rest, [])
  {
    hide OpenedBy, AllOpenArgs, ExtraInputs;
    var extras := AllOpenArgs(ExtraInputs(chain));
    GroupOpens(words, path, extras + rest);
    ExtrasOpen(ExtraInputs(chain), rest);
    assert words + ["-i", path] + extras + rest == words + ["-i", path] + (extras + rest);
  }

  lemma NothingOpens()
    ensures OpenedBy([], []) == []
  {
  }

  /**
   The assembled command. The options of an input are not allowed to open one themselves, and the
   caller's arguments open exactly the main input; then input `k` of the graph is file `k` of the
   command, and the mapped label carries the chain applied to the main file. Both are said of the words
   of the command, when the filters hold no separators of the graph.
   */
  method GetFfmpegArgs(globalArgs: seq<string>, mainOptions: seq<string>, path: string,
                       chain: seq<Filter>, outputArgs: seq<string>)
    returns (command: seq<string>, args: FilterArgs)
    requires "-i" !in globalArgs + mainOptions
    requires forall x | x in ExtraInputs(chain) :: "-i" !in x.inputArgs
    ensures Implements(args, chain, Opened(globalArgs + mainOptions, path))
    ensures Files(chain, Opened(globalArgs + mainOptions, path)) <= OpenedBy(command, [])
    ensures CleanChain(chain) && NoFilterArgs(outputArgs) ==>
              CommandCarries(command, chain, Opened(globalArgs + mainOptions, path))
    ensures command == globalArgs + mainOptions + ["-i", path] + AllOpenArgs(ExtraInputs(chain))
                       + (Render(args) + outputArgs)
  {
    hide Implements, OpenedBy, Files, AllOpenArgs, CleanArgs, CleanChain, Render, NoFilterArgs, CommandCarries;
    ghost var main := Opened(globalArgs + mainOptions, path);
    var filterInputArgs;
    filterInputArgs, args := BuildFiltergraphArgs(chain, main);
    var inputs, tail := globalArgs + mainOptions + ["-i", path] + filterInputArgs, Render(args) + outputArgs;
    command := inputs + tail;
    InputsOpen(globalArgs + mainOptions, path, chain, tail);
    InputsOpen(globalArgs + mainOptions, path, chain, []);
    NothingOpens();
    assert inputs + [] == inputs && Files(chain, main) + [] == Files(chain, main);
    if CleanChain(chain) && NoFilterArgs(outputArgs) {
      WordsCarry(inputs, args, outputArgs, chain, main);
    }
  }
}
