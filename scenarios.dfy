/** Two complete command lines for one example configuration. */
module Scenarios {
  import opened Wrapsync

  const ExampleExclude := "--exclude={'node_modules','*.jar'}"

  const Example := Config(
    "johndoe", "example.com", "local/dir/path", "remote/dir/path", "aP", ["node_modules", "*.jar"])

  /** The example's exclude token quotes both patterns in order. */
  lemma ExampleExcludeToken()
    ensures ExcludeOption(Example.exclude) == ExampleExclude
  {
    assert JoinQuoted(["*.jar"]) == "'*.jar'";
    assert JoinQuoted(Example.exclude) == "'node_modules'" + "," + "'*.jar'";
  }

  lemma ExampleRemoteAddress()
    ensures RemoteAddress(Example.username, Example.domain, Example.remotePath) ==
      "johndoe@example.com:remote/dir/path"
  {
  }

  lemma ExampleFlagsToken()
    ensures FlagsTokens(Example.flags) == ["-aP"]
  {
    assert "-" + "aP" == "-aP";
  }

  /** Pushing a named directory appends it to the local source only. */
  lemma PushNamedDirectory()
    ensures RsyncCommand(Args("push", "directory_name", []), Example) ==
      ["rsync", "-aP", ExampleExclude,
       "local/dir/path/directory_name", "johndoe@example.com:remote/dir/path"]
  {
    ExampleExcludeToken();
    ExampleFlagsToken();
    ExampleRemoteAddress();
    var paths := GetPaths(Example, "push", "directory_name");
    assert paths == PathPair("local/dir/path/directory_name", "johndoe@example.com:remote/dir/path");
    assert RsyncCommand(Args("push", "directory_name", []), Example) ==
      ["rsync"] + ["-aP"] + [ExampleExclude] + [] + [paths.from, paths.to];
  }

  lemma ExamplePullAllPaths(config: Config)
    requires config.localPath == "local/dir/path"
    ensures GetPaths(config, "pull", "all") ==
      PathPair(RemoteAddress(config.username, config.domain, config.remotePath), "local/dir")
  {
    assert config.localPath == "local/dir" + "/" + "path";
    PullAllTargetsParent(config, "local/dir", "path");
  }

  /** Pulling "all" keeps the pass-through options in order and lands in the local parent. */
  lemma PullAll()
    ensures RsyncCommand(Args("pull", "all", ["--delete", "--whatever"]), Example) ==
      ["rsync", "-aP", ExampleExclude, "--delete", "--whatever",
       "johndoe@example.com:remote/dir/path", "local/dir"]
  {
    ExampleExcludeToken();
    ExampleFlagsToken();
    ExamplePullAllPaths(Example);
    ExampleRemoteAddress();
    var paths := GetPaths(Example, "pull", "all");
    assert paths.from == "johndoe@example.com:remote/dir/path";
    assert paths.to == "local/dir";
    var cmd := RsyncCommand(Args("pull", "all", ["--delete", "--whatever"]), Example);
    assert cmd == ["rsync"] + ["-aP"] + [ExampleExclude] + ["--delete", "--whatever"] + [paths.from, paths.to];
  }
}
