/** The rsync command construction of wrapsync2: resolving the source and
    destination of a push or a pull, formatting the single `--exclude` token,
    assembling the argument vector handed to rsync, and validating the
    command-line arguments of the script. */
module Wrapsync {
  import opened Text
  import opened PosixPath

  datatype Option<T> = None | Some(value: T)

  /** The configuration file's contents. Every key is read unconditionally by
      the code, so every field is present. */
  datatype Config = Config(
    username: string,
    domain: string,
    localPath: string,
    remotePath: string,
    flags: string,
    exclude: seq<string>)

  /** Validated command-line arguments. */
  datatype Args = Args(action: string, dirName: string, options: seq<string>)

  datatype PathPair = PathPair(from: string, to: string)

  /** The keyword that syncs the whole configured directory. */
  const AllDirs := "all"

  // ---------------------------------------------------------------------
  // Remote and local paths
  // ---------------------------------------------------------------------

  /** The `user@host:path` address rsync reaches over SSH. */
  function RemoteAddress(user: string, host: string, path: string): string {
    user + "@" + host + ":" + path
  }

  /** One way to split a remote address back into its parts: the user runs up
      to the first `@`, the host from there up to the next `:`, and the path
      is the rest. */
  function SplitRemote(addr: string): (r: Option<(string, string, string)>)
  {
    var at := IndexOf(addr, '@');
    if at == |addr| then None
    else
      var rest := addr[at + 1..];
      var colon := IndexOf(rest, ':');
      if colon == |rest| then None
      else
        Some((addr[..at], rest[..colon], rest[colon + 1..]))
  }

  /** A remote address splits back into its user, host and path, provided the
      user has no `@` and the host no `:`; the path may hold anything. */
  lemma {:induction false} RemoteAddressRoundTrip(user: string, host: string, path: string)
    requires '@' !in user && ':' !in host
    ensures SplitRemote(RemoteAddress(user, host, path)) == Some((user, host, path))
  {
    var addr := RemoteAddress(user, host, path);
    var tail := host + [':'] + path;
    assert addr == user + ['@'] + tail;
    IndexOfAfter(user, '@', tail);
    assert addr[..|user|] == user;
    assert addr[|user| + 1..] == tail;
    IndexOfAfter(host, ':', path);
    assert tail[..|host|] == host;
    assert tail[|host| + 1..] == path;
  }

  /** The configured remote directory, or its parent, as a remote address. */
  function BuildRemotePath(config: Config, isParent: bool): (r: string)
    ensures |r| >= |config.username| + |config.domain| + 2
    ensures r[..|config.username| + |config.domain| + 2] == config.username + "@" + config.domain + ":"
    ensures r[|config.username| + |config.domain| + 2..] <= config.remotePath
    ensures !isParent ==> r[|config.username| + |config.domain| + 2..] == config.remotePath
    ensures isParent ==> r[|config.username| + |config.domain| + 2..] == Dirname(config.remotePath)
  {
    var remotePath := if isParent then Dirname(config.remotePath) else config.remotePath;
    RemoteAddress(config.username, config.domain, remotePath)
  }

  /** The configured local directory, or its parent. */
  function BuildLocalPath(config: Config, isParent: bool): (r: string)
    ensures r <= config.localPath
    ensures !isParent ==> r == config.localPath
    ensures isParent ==> (r == "" <==> '/' !in config.localPath)
    ensures isParent ==> r == Dirname(config.localPath)
  {
    if isParent then Dirname(config.localPath) else config.localPath
  }

  /** The source and destination of a sync. Only a sync of "all" reduces its
      destination to the parent directory, a named directory is appended to
      the source alone, and any action other than "push" is a pull. */
  function GetPaths(config: Config, action: string, dirName: string): (r: PathPair)
    ensures action == "push" && dirName == AllDirs ==> (r ==
      PathPair(config.localPath, RemoteAddress(config.username, config.domain, Dirname(config.remotePath))))
    ensures action == "push" && dirName != AllDirs ==> (r ==
      PathPair(config.localPath + "/" + dirName, RemoteAddress(config.username, config.domain, config.remotePath)))
    ensures action != "push" && dirName == AllDirs ==> (r ==
      PathPair(RemoteAddress(config.username, config.domain, config.remotePath), Dirname(config.localPath)))
    ensures action != "push" && dirName != AllDirs ==> (r ==
      PathPair(RemoteAddress(config.username, config.domain, config.remotePath) + "/" + dirName, config.localPath))
  {
    if action == "push" then
      if dirName == AllDirs then
        PathPair(BuildLocalPath(config, false), BuildRemotePath(config, true))
      else
        PathPair(BuildLocalPath(config, false) + "/" + dirName, BuildRemotePath(config, false))
    else
      if dirName == AllDirs then
        PathPair(BuildRemotePath(config, false), BuildLocalPath(config, true))
      else
        PathPair(BuildRemotePath(config, false) + "/" + dirName, BuildLocalPath(config, false))
  }

  /** Every action other than "push" resolves exactly as "pull" does. */
  lemma NonPushIsPull(config: Config, action: string, dirName: string)
    requires action != "push"
    ensures GetPaths(config, action, dirName) == GetPaths(config, "pull", dirName)
  {
  }

  /** Pushing "all" of a remote `parent/leaf` with a non-empty last segment
      keeps the local source whole and has the remote `parent` as destination. */
  lemma PushAllTargetsParent(config: Config, parent: string, leaf: string)
    requires config.remotePath == parent + "/" + leaf
    requires parent != "" && parent[|parent| - 1] != '/' && leaf != "" && '/' !in leaf
    ensures GetPaths(config, "push", AllDirs).from == config.localPath
    ensures GetPaths(config, "push", AllDirs).to == RemoteAddress(config.username, config.domain, parent)
  {
    DirnameOfJoin(parent, leaf);
  }

  /** Pulling "all" into a local `parent/leaf` with a non-empty last segment
      has the local `parent` as destination, while the remote source keeps its
      full path. */
  lemma PullAllTargetsParent(config: Config, parent: string, leaf: string)
    requires config.localPath == parent + "/" + leaf
    requires parent != "" && parent[|parent| - 1] != '/' && leaf != "" && '/' !in leaf
    ensures GetPaths(config, "pull", AllDirs).from == RemoteAddress(config.username, config.domain, config.remotePath)
    ensures GetPaths(config, "pull", AllDirs).to == parent
  {
    DirnameOfJoin(parent, leaf);
  }

  /** A configured path with a trailing slash is not reduced to its parent:
      the destination of syncing "all" is then the directory itself. */
  lemma TrailingSlashKeepsDirectory(config: Config, remoteDir: string, localDir: string)
    requires config.remotePath == remoteDir + "/" && remoteDir != "" && remoteDir[|remoteDir| - 1] != '/'
    requires config.localPath == localDir + "/" && localDir != "" && localDir[|localDir| - 1] != '/'
    ensures GetPaths(config, "push", AllDirs).to == RemoteAddress(config.username, config.domain, remoteDir)
    ensures GetPaths(config, "pull", AllDirs).to == localDir
  {
    DirnameOfTrailingSlash(remoteDir);
    DirnameOfTrailingSlash(localDir);
  }

  // ---------------------------------------------------------------------
  // The exclude token
  // ---------------------------------------------------------------------

  const ExcludePrefix := "--exclude={"

  function Quote(pattern: string): string {
    "'" + pattern + "'"
  }

  /** The quoted patterns separated by commas, in their order. */
  function JoinQuoted(patterns: seq<string>): string {
    if patterns == [] then ""
    else if |patterns| == 1 then Quote(patterns[0])
    else Quote(patterns[0]) + "," + JoinQuoted(patterns[1..])
  }

  /** The one brace-set token `--exclude={'p1','p2',...}`; `--exclude={}` for no patterns. */
  function ExcludeOption(patterns: seq<string>): (r: string)
    ensures |r| >= |ExcludePrefix| + 1
    ensures r[..|ExcludePrefix|] == ExcludePrefix && r[|r| - 1] == '}'
    ensures patterns == [] <==> r == "--exclude={}"
  {
    ExcludePrefix + JoinQuoted(patterns) + "}"
  }

  /** Adding one more pattern at the end adds a comma (unless it is the
      first) and that pattern quoted. */
  lemma {:induction false} JoinQuotedSnoc(patterns: seq<string>, p: string)
    ensures JoinQuoted(patterns + [p]) ==
      (if patterns == [] then "" else JoinQuoted(patterns) + ",") + Quote(p)
  {
    if patterns != [] {
      assert (patterns + [p])[0] == patterns[0];
      assert (patterns + [p])[1..] == patterns[1..] + [p];
      JoinQuotedSnoc(patterns[1..], p);
    }
  }

  /** Builds the exclude token by accumulating the quoted patterns. */
  method BuildExcludeOption(excludes: seq<string>) returns (option: string)
    ensures option == ExcludeOption(excludes)
  {
    option := "--exclude={";
    for i := 0 to |excludes|
      invariant option == ExcludePrefix + JoinQuoted(excludes[..i])
    {
      JoinQuotedSnoc(excludes[..i], excludes[i]);
      assert excludes[..i + 1] == excludes[..i] + [excludes[i]];
      option := option + (if i > 0 then "," else "");
      option := option + "'" + excludes[i] + "'";
    }
    assert excludes[..|excludes|] == excludes;
    option := option + "}";
  }

  /** Reads one single-quoted pattern at the start of `s`, with what follows it. */
  function ParseQuoted(s: string): (r: Option<(string, string)>)
    ensures r.Some? ==> |r.value.1| < |s|
  {
    if s == [] || s[0] != '\'' then None
    else
      var close := IndexOf(s[1..], '\'');
      if close == |s| - 1 then None
      else Some((s[1..close + 1], s[close + 2..]))
  }

  /** Reads back a comma-separated list of single-quoted patterns. */
  function ParseQuotedList(s: string): Option<seq<string>>
    decreases |s|
  {
    match ParseQuoted(s)
    case None => None
    case Some((item, rest)) =>
      if rest == [] then Some([item])
      else if rest[0] != ',' then None
      else
        match ParseQuotedList(rest[1..])
        case None => None
        case Some(more) => Some([item] + more)
  }

  /** Reads back the patterns of an exclude token. */
  function ParseExcludeOption(token: string): Option<seq<string>> {
    if |token| < |ExcludePrefix| + 1 || token[..|ExcludePrefix|] != ExcludePrefix || token[|token| - 1] != '}' then None
    else
      var inner := token[|ExcludePrefix|..|token| - 1];
      if inner == [] then Some([]) else ParseQuotedList(inner)
  }

  predicate NoQuotes(patterns: seq<string>) {
    forall i :: 0 <= i < |patterns| ==> '\'' !in patterns[i]
  }

  /** A quoted pattern without quotes inside is read back whole, with whatever follows it. */
  lemma ParseQuotedOfQuote(p: string, tail: string)
    requires '\'' !in p
    ensures ParseQuoted(Quote(p) + tail) == Some((p, tail))
  {
    var s := Quote(p) + tail;
    assert s[1..] == p + ['\''] + tail;
    IndexOfAfter(p, '\'', tail);
    assert s[1..|p| + 1] == p;
    assert s[|p| + 2..] == tail;
  }

  /** One quoted pattern is read back, with whatever follows it. */
  lemma ParseQuotedHead(p: string, tail: string)
    requires '\'' !in p
    ensures tail == [] ==> ParseQuotedList(Quote(p) + tail) == Some([p])
    ensures tail != [] && tail[0] == ',' && ParseQuotedList(tail[1..]).Some? ==>
      ParseQuotedList(Quote(p) + tail) == Some([p] + ParseQuotedList(tail[1..]).value)
  {
    ParseQuotedOfQuote(p, tail);
  }

  /** The list of two or more quoted patterns is the first one, a comma and the rest. */
  lemma JoinQuotedCons(patterns: seq<string>)
    requires |patterns| >= 1
    ensures JoinQuoted(patterns) ==
      Quote(patterns[0]) + (if |patterns| == 1 then [] else "," + JoinQuoted(patterns[1..]))
  {
  }

  /** Reading back a pattern list one pattern longer than a list that reads back. */
  lemma ParseJoinQuotedStep(p: string, more: seq<string>)
    requires '\'' !in p && more != []
    requires ParseQuotedList(JoinQuoted(more)) == Some(more)
    ensures ParseQuotedList(JoinQuoted([p] + more)) == Some([p] + more)
  {
    var tail := "," + JoinQuoted(more);
    JoinQuotedCons([p] + more);
    assert ([p] + more)[1..] == more;
    assert tail[1..] == JoinQuoted(more);
    ParseQuotedHead(p, tail);
  }

  lemma {:induction false} ParseJoinQuoted(patterns: seq<string>)
    requires patterns != [] && NoQuotes(patterns)
    ensures ParseQuotedList(JoinQuoted(patterns)) == Some(patterns)
  {
    var p := patterns[0];
    assert '\'' !in p;
    if |patterns| == 1 {
      JoinQuotedCons(patterns);
      ParseQuotedHead(p, []);
      assert patterns == [p];
    } else {
      var more := patterns[1..];
      assert NoQuotes(more);
      ParseJoinQuoted(more);
      ParseJoinQuotedStep(p, more);
      assert patterns == [p] + more;
    }
  }

  /** The exclude token determines its patterns, provided no pattern holds a single quote. */
  lemma ExcludeOptionRoundTrip(patterns: seq<string>)
    requires NoQuotes(patterns)
    ensures ParseExcludeOption(ExcludeOption(patterns)) == Some(patterns)
  {
    var token := ExcludeOption(patterns);
    assert token[|ExcludePrefix|..|token| - 1] == JoinQuoted(patterns);
    if patterns != [] {
      ParseJoinQuoted(patterns);
    }
  }

  /** Patterns are quoted without escaping: a pattern holding a single quote
      can produce the same token as two other patterns. */
  lemma QuoteInPatternIsAmbiguous()
    ensures ExcludeOption(["a','b"]) == ExcludeOption(["a", "b"])
    ensures ["a','b"] != ["a", "b"]
  {
  }

  // ---------------------------------------------------------------------
  // The rsync command
  // ---------------------------------------------------------------------

  /** The `-flags` cluster, present only when flags are configured. */
  function FlagsTokens(flags: string): seq<string> {
    if flags != "" then ["-" + flags] else []
  }

  /** The argument vector handed to rsync. */
  function RsyncCommand(args: Args, config: Config): seq<string> {
    var paths := GetPaths(config, args.action, args.dirName);
    ["rsync"] + FlagsTokens(config.flags) + [ExcludeOption(config.exclude)] + args.options + [paths.from, paths.to]
  }

  /** Builds the rsync command by appending its tokens one after another. */
  method GetRsyncCommand(args: Args, config: Config) returns (cmd: seq<string>)
    ensures cmd == RsyncCommand(args, config)
  {
    cmd := ["rsync"];
    if config.flags != "" {
      cmd := cmd + ["-" + config.flags];
    }
    var exclude := BuildExcludeOption(config.exclude);
    cmd := cmd + [exclude];
    ghost var head := cmd;
    for i := 0 to |args.options|
      invariant cmd == head + args.options[..i]
    {
      assert args.options[..i + 1] == args.options[..i] + [args.options[i]];
      cmd := cmd + [args.options[i]];
    }
    assert args.options[..|args.options|] == args.options;
    var paths := GetPaths(config, args.action, args.dirName);
    cmd := cmd + [paths.from];
    cmd := cmd + [paths.to];
  }

  /** Token order: rsync first, then the flags cluster exactly when flags are
      configured, then exactly one exclude token, then the pass-through
      options verbatim and in order, then the source and the destination. */
  lemma CommandLayout(args: Args, config: Config)
    ensures var cmd := RsyncCommand(args, config);
      var paths := GetPaths(config, args.action, args.dirName);
      var e := if config.flags != "" then 2 else 1;
      && |cmd| == 1 + (if config.flags != "" then 1 else 0) + 1 + |args.options| + 2
      && cmd[0] == "rsync"
      && (cmd[1] == "-" + config.flags <==> config.flags != "")
      && cmd[e] == ExcludeOption(config.exclude)
      && cmd[e + 1..|cmd| - 2] == args.options
      && cmd[|cmd| - 2] == paths.from
      && cmd[|cmd| - 1] == paths.to
  {
    var cmd := RsyncCommand(args, config);
    var e := if config.flags != "" then 2 else 1;
    if config.flags == "" {
      assert cmd[1] == ExcludeOption(config.exclude);
      assert |cmd[1]| != |"-" + config.flags|;
    }
    assert cmd[e + 1..|cmd| - 2] == args.options;
  }

  // ---------------------------------------------------------------------
  // Command-line arguments
  // ---------------------------------------------------------------------

  /** What validating the argument vector ends in: the parsed arguments, a
      request for the usage text (exit status 0), or a usage error (exit status 1). */
  datatype ArgvOutcome = Parsed(args: Args) | Help | UsageError(message: string)

  const NoActionMessage := "No action has been specified in the first argument"
  const BadActionMessage := "The action must either be 'push' or 'pull'"
  const NoDirectoryMessage := "No directory has been specified in the second argument"

  const HelpAliases := ["--help", "-help", "-h", "help"]
  const Actions := ["push", "pull"]

  /** Validates the argument vector (program name first). */
  function ParseArgv(argv: seq<string>): (r: ArgvOutcome)
    ensures r.Parsed? ==> r.args.action in Actions
    ensures r.Parsed? ==> |argv| >= 3 && argv == [argv[0], r.args.action, r.args.dirName] + r.args.options
  {
    if |argv| < 2 then UsageError(NoActionMessage)
    else if Lower(argv[1]) in HelpAliases then Help
    else if argv[1] !in Actions then UsageError(BadActionMessage)
    else if |argv| < 3 then UsageError(NoDirectoryMessage)
    else Parsed(Args(argv[1], argv[2], argv[3..]))
  }

  /** The actions are written in lower case and are not help aliases. */
  lemma ActionsAreNotHelp(action: string)
    requires action in Actions
    ensures Lower(action) !in HelpAliases
  {
    assert forall i :: 0 <= i < |action| ==> !IsAsciiUpper(action[i]);
    LowerFixesLowercase(action);
  }

  /** Each outcome and the exact inputs that lead to it. */
  lemma ParseArgvOutcomes(argv: seq<string>)
    ensures ParseArgv(argv) == UsageError(NoActionMessage) <==> |argv| < 2
    ensures ParseArgv(argv) == Help <==> |argv| >= 2 && Lower(argv[1]) in HelpAliases
    ensures ParseArgv(argv) == UsageError(BadActionMessage) <==>
      |argv| >= 2 && Lower(argv[1]) !in HelpAliases && argv[1] !in Actions
    ensures ParseArgv(argv) == UsageError(NoDirectoryMessage) <==> |argv| == 2 && argv[1] in Actions
    ensures ParseArgv(argv).Parsed? <==> |argv| >= 3 && argv[1] in Actions
  {
    if |argv| >= 2 && argv[1] in Actions {
      ActionsAreNotHelp(argv[1]);
    }
  }

  /** Any arguments with a valid action survive being written out as an
      argument vector and validated again. */
  lemma ParseArgvRoundTrip(program: string, args: Args)
    requires args.action in Actions
    ensures ParseArgv([program, args.action, args.dirName] + args.options) == Parsed(args)
  {
    var argv := [program, args.action, args.dirName] + args.options;
    ActionsAreNotHelp(args.action);
    assert argv[3..] == args.options;
  }

  /** Help aliases are matched ignoring case; actions are not. */
  lemma ParseArgvCase(program: string, dirName: string)
    ensures ParseArgv([program, "HELP"]) == Help
    ensures ParseArgv([program, "-H", dirName]) == Help
    ensures ParseArgv([program, "PUSH", dirName]) == UsageError(BadActionMessage)
  {
    assert Lower("HELP") == "help";
    assert Lower("-H") == "-h";
    assert Lower("PUSH") == "push";
  }
}
