/**
 * The command line of src/main.c: parse_args collects the -t, -i and -p
 * options and validates them, handle_args picks the client or the server.
 *
 * getopt itself is not modelled: its results arrive as a sequence of
 * `ParsedOption`s, where an unknown option or a missing argument is any
 * letter other than 't', 'i' and 'p' (getopt reports both as '?').
 */
module Cli {
  import opened Common
  import opened StringTools

  /** One result of getopt(argc, argv, "t:i:p:"): the option letter and its argument. */
  datatype ParsedOption = ParsedOption(letter: char, arg: string)

  /** `struct arguments`: each field is NULL until its option is seen. */
  datatype Arguments = Arguments(argType: Option<string>, ip: Option<string>, port: Option<string>)

  /** The letters parse_args handles. */
  predicate IsKnownOption(letter: char)
  {
    letter == 't' || letter == 'i' || letter == 'p'
  }

  /** Option `i` is the last occurrence of `letter`. */
  predicate IsLastOccurrence(opts: seq<ParsedOption>, letter: char, i: int)
  {
    0 <= i < |opts| && opts[i].letter == letter && forall j :: i < j < |opts| ==> opts[j].letter != letter
  }

  /** The argument of the last occurrence of option `letter`, or None when it does not occur. */
  function LastArg(opts: seq<ParsedOption>, letter: char): (r: Option<string>)
    ensures r.None? <==> forall i :: 0 <= i < |opts| ==> opts[i].letter != letter
    ensures r.Some? ==> exists i :: IsLastOccurrence(opts, letter, i) && opts[i].arg == r.value
  {
    if opts == [] then None
    else if opts[|opts| - 1].letter == letter then
      assert IsLastOccurrence(opts, letter, |opts| - 1);
      Some(opts[|opts| - 1].arg)
    else
      var init := opts[..|opts| - 1];
      var r := LastArg(init, letter);
      assert forall i :: 0 <= i < |init| ==> init[i] == opts[i];
      assert forall i :: IsLastOccurrence(init, letter, i) ==> IsLastOccurrence(opts, letter, i);
      r
  }

  /** The arguments the getopt loop collects when every option is known: the last value of each wins. */
  function Collected(opts: seq<ParsedOption>): Arguments
  {
    Arguments(LastArg(opts, 't'), LastArg(opts, 'i'), LastArg(opts, 'p'))
  }

  /** The check of main.c:69: all three present, a '.' in the address and none in the port. */
  predicate ArgumentsValid(args: Arguments)
  {
    && args.argType.Some? && args.ip.Some? && args.port.Some?
    && '.' in CString(args.ip.value) && '.' !in CString(args.port.value)
  }

  /**
   * parse_args (main.c:39-76): any unknown option ends the process, a
   * repeated option keeps its last value, and arguments that fail the
   * validation of line 69 end the process too.
   */
  method ParseArgs(opts: seq<ParsedOption>) returns (r: Run<Arguments>)
    ensures !r.Crash?
    ensures r.ExitFailure? <==> (exists i :: 0 <= i < |opts| && !IsKnownOption(opts[i].letter))
                                || !ArgumentsValid(Collected(opts))
    ensures r.Returns? ==> r.value == Collected(opts) && ArgumentsValid(r.value)
  {
    var args := Arguments(None, None, None);
    var i := 0;
    while i < |opts|
      invariant i <= |opts|
      invariant forall j :: 0 <= j < i ==> IsKnownOption(opts[j].letter)
      invariant args == Collected(opts[..i])
    {
      var opt := opts[i];
      assert opts[..i + 1][..i] == opts[..i];
      if opt.letter == 't' {
        args := args.(argType := Some(opt.arg));
      } else if opt.letter == 'i' {
        args := args.(ip := Some(opt.arg));
      } else if opt.letter == 'p' {
        args := args.(port := Some(opt.arg));
      } else {
        return ExitFailure;
      }
      i := i + 1;
    }
    assert opts[..|opts|] == opts;
    if args.argType.None? || args.ip.None? || args.port.None? {
      return ExitFailure;
    }
    var ipHasDot := CheckIfCharInString(args.ip.value, '.');
    if !ipHasDot {
      return ExitFailure;
    }
    var portHasDot := CheckIfCharInString(args.port.value, '.');
    if portHasDot {
      return ExitFailure;
    }
    return Returns(args);
  }

  /** The handler library and worker count handle_args starts the server with (main.c:99-100). */
  const SO_PATH: string := "./handlers/handler_v1.so"
  const NUM_WORKERS: nat := 4

  /** What handle_args does with the arguments. */
  datatype Dispatch =
    | ConnectClient(ip: string, port: string)
    | StartServer(ip: string, port: string, soPath: string, numWorkers: nat)
    | ReturnOne

  /**
   * handle_args (main.c:78-114): a missing field returns 1, type "client"
   * connects, type "server" starts the pre-fork server with the fixed
   * library path and four workers, any other type returns 1.
   */
  function HandleArgs(args: Arguments): (d: Dispatch)
    ensures d.ReturnOne? <==> args.argType.None? || args.ip.None? || args.port.None?
                              || (CString(args.argType.value) != "client" && CString(args.argType.value) != "server")
    ensures !d.ReturnOne? ==> d.ip == args.ip.value && d.port == args.port.value
    ensures !d.ReturnOne? ==> (d.ConnectClient? <==> CString(args.argType.value) == "client")
    ensures !d.ReturnOne? ==> (d.StartServer? <==> CString(args.argType.value) == "server")
    ensures d.StartServer? ==> d.soPath == SO_PATH && d.numWorkers == NUM_WORKERS
  {
    if args.argType.None? || args.ip.None? || args.port.None? then ReturnOne
    else if CString(args.argType.value) == "client" then ConnectClient(args.ip.value, args.port.value)
    else if CString(args.argType.value) == "server" then StartServer(args.ip.value, args.port.value, SO_PATH, NUM_WORKERS)
    else ReturnOne
  }

  /**
   * "-t server -i <ip> -p <port>" with a dotted address and a port without a
   * dot passes validation and starts the server on that address and port.
   */
  lemma ServerCommandLine(ip: string, port: string)
    requires '\0' !in ip && '\0' !in port
    requires '.' in ip && '.' !in port
    ensures var opts := [ParsedOption('t', "server"), ParsedOption('i', ip), ParsedOption('p', port)];
            ArgumentsValid(Collected(opts))
            && HandleArgs(Collected(opts)) == StartServer(ip, port, SO_PATH, NUM_WORKERS)
  {
    var opts := [ParsedOption('t', "server"), ParsedOption('i', ip), ParsedOption('p', port)];
    var args := Arguments(Some("server"), Some(ip), Some(port));
    assert Collected(opts) == args by {
      assert opts[..2] == [opts[0], opts[1]];
      assert opts[..2][..1] == [opts[0]];
      assert LastArg(opts, 't') == Some("server");
      assert LastArg(opts, 'i') == Some(ip);
      assert LastArg(opts, 'p') == Some(port);
    }
    assert HandleArgs(args) == StartServer(ip, port, SO_PATH, NUM_WORKERS) by {
      ServerIsCString();
    }
  }

  lemma ServerIsCString()
    ensures CString("server") == "server"
  {
    assert '\0' !in "server";
  }

  /** "-i 8080" alone fails validation: the type and the port are missing. */
  lemma AddressAloneRejected()
    ensures !ArgumentsValid(Collected([ParsedOption('i', "8080")]))
  {
    var opts := [ParsedOption('i', "8080")];
    assert LastArg(opts, 't') == None;
  }

  /**
   * Once parse_args has returned, handle_args never takes its NULL branch:
   * the only way to get 1 is a type other than "client" and "server".
   */
  lemma ValidArgumentsDispatch(args: Arguments)
    requires ArgumentsValid(args)
    ensures HandleArgs(args).ReturnOne? <==> CString(args.argType.value) != "client" && CString(args.argType.value) != "server"
  {
  }
}
