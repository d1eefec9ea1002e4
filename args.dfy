/** The command-line check at the top of amazon.js. `args` is PhantomJS's
    `system.args`: the script name followed by the user's arguments. */
module Args {
  import opened Wrappers

  /** What a run needs from its arguments. */
  datatype Config = Config(email: string, password: string, latest: bool)

  /** Argument `i`, or `None` where JavaScript reads `undefined`. */
  function Arg(args: seq<string>, i: nat): (r: Option<string>)
    ensures r.Some? <==> i < |args|
    ensures r.Some? ==> r.value == args[i]
  {
    if i < |args| then Some(args[i]) else None
  }

  /** The result of the check as written: `None` is the usage message and
      exit; otherwise the email, password (either possibly `undefined`) and
      the `-latest` flag. */
  datatype Invocation = Invocation(email: Option<string>, password: Option<string>, latest: bool)

  /** The check exactly as written: it rejects only when the count is not 3
      AND the count is not 4-with-`-latest`, then picks the fields by whether
      the first argument is `-latest`. */
  function ParseArgsAsWritten(args: seq<string>): (r: Option<Invocation>)
    ensures r.Some? <==> |args| == 3 || (|args| == 4 && args[1] == "-latest")
    ensures r.Some? ==> (r.value.latest <==> args[1] == "-latest")
  {
    if |args| != 3 && (|args| != 4 || args[1] != "-latest") then None
    else if args[1] == "-latest" then Some(Invocation(Arg(args, 2), Arg(args, 3), true))
    else Some(Invocation(Arg(args, 1), Arg(args, 2), false))
  }

  /** As written, `-latest user` with no password passes the check and the
      password is `undefined`. */
  lemma AsWrittenAcceptsMissingPassword()
    ensures ParseArgsAsWritten(["amazon.js", "-latest", "me@example.com"])
            == Some(Invocation(Some("me@example.com"), None, true))
  {
  }

  /** The check as the usage line `amazon.js [-latest] <user> <pass>`
      describes it: two positional arguments, or `-latest` and two. */
  function ParseArgs(args: seq<string>): (r: Option<Config>)
    ensures r.Some? <==> (|args| == 3 && args[1] != "-latest") || (|args| == 4 && args[1] == "-latest")
    ensures r.Some? ==> (r.value.latest <==> |args| == 4)
    ensures r.Some? ==> r.value.email == args[|args| - 2] && r.value.password == args[|args| - 1]
  {
    if |args| == 3 && args[1] != "-latest" then Some(Config(args[1], args[2], false))
    else if |args| == 4 && args[1] == "-latest" then Some(Config(args[2], args[3], true))
    else None
  }

  /** The corrected check agrees with the written one on every argument list
      it accepts, and rejects only the one shape whose password is missing. */
  lemma ParseArgsRefinesAsWritten(args: seq<string>)
    ensures ParseArgs(args).Some? ==>
              ParseArgsAsWritten(args) == Some(Invocation(Some(ParseArgs(args).value.email),
                                                          Some(ParseArgs(args).value.password),
                                                          ParseArgs(args).value.latest))
    ensures ParseArgsAsWritten(args).Some? && ParseArgs(args).None? <==>
              |args| == 3 && args[1] == "-latest"
    ensures ParseArgsAsWritten(args).Some? && ParseArgs(args).None? ==>
              ParseArgsAsWritten(args).value.password == None
  {
  }
}
