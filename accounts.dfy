/** How EnsurePterodactylUser decides whether to create the system account
    and which commands create it. The lookups, the release-name read and
    the commands themselves are performed by the operating system; the model
    receives their outcomes as inputs. */
module Accounts {
  import opened Base

  // ---------------------------------------------------------------------
  // Splitting a command line on a separator (strings.Split) and its inverse

  /** The words joined with `sep` between consecutive ones (strings.Join). */
  function Join(words: seq<string>, sep: char): string
    decreases |words|
  {
    if words == [] then ""
    else if |words| == 1 then words[0]
    else words[0] + [sep] + Join(words[1..], sep)
  }

  /** The pieces of `s` between occurrences of `sep` (strings.Split with a
      one-character separator): never empty, no piece contains `sep`, and
      the empty string gives one empty piece. */
  function Split(s: string, sep: char): (pieces: seq<string>)
    ensures |pieces| >= 1
    ensures forall k | 0 <= k < |pieces| :: sep !in pieces[k]
    ensures s == [] ==> pieces == [""]
  {
    if s == [] then [""]
    else if s[0] == sep then [""] + Split(s[1..], sep)
    else
      var rest := Split(s[1..], sep);
      [[s[0]] + rest[0]] + rest[1..]
  }

  /** Joining the pieces again gives back the split string. */
  lemma {:induction false} JoinSplit(s: string, sep: char)
    ensures Join(Split(s, sep), sep) == s
  {
    if s != [] {
      var rest := Split(s[1..], sep);
      JoinSplit(s[1..], sep);
      if s[0] == sep {
        assert Split(s, sep) == [""] + rest;
      } else {
        var pieces := Split(s, sep);
        assert pieces == [[s[0]] + rest[0]] + rest[1..];
        if |rest| == 1 {
          assert pieces == [[s[0]] + rest[0]];
        } else {
          assert pieces[1..] == rest[1..];
          assert Join(rest, sep) == rest[0] + [sep] + Join(rest[1..], sep);
        }
      }
    }
  }

  /** A word free of `sep` followed by `sep` splits off as one piece. */
  lemma {:induction false} SplitAfterWord(w: string, sep: char, t: string)
    requires sep !in w
    ensures Split(w + [sep] + t, sep) == [w] + Split(t, sep)
    decreases |w|
  {
    if w == [] {
      assert w + [sep] + t == [sep] + t;
      assert ([sep] + t)[1..] == t;
    } else {
      SplitAfterWord(w[1..], sep, t);
      assert (w + [sep] + t)[1..] == w[1..] + [sep] + t;
      assert [w[0]] + w[1..] == w;
    }
  }

  /** A word free of `sep` is a single piece. */
  lemma {:induction false} SplitWord(w: string, sep: char)
    requires sep !in w
    ensures Split(w, sep) == [w]
    decreases |w|
  {
    if w != [] {
      SplitWord(w[1..], sep);
      assert [w[0]] + w[1..] == w;
    }
  }

  /** Splitting a joined list of words free of `sep` gives back the words. */
  lemma {:induction false} SplitJoin(words: seq<string>, sep: char)
    requires |words| >= 1
    requires forall k | 0 <= k < |words| :: sep !in words[k]
    ensures Split(Join(words, sep), sep) == words
    decreases |words|
  {
    if |words| == 1 {
      SplitWord(words[0], sep);
    } else {
      SplitJoin(words[1..], sep);
      SplitAfterWord(words[0], sep, Join(words[1..], sep));
    }
  }

  // ---------------------------------------------------------------------
  // Account-creation commands

  /** A program name and its arguments, as handed to exec.Command. */
  datatype Command = Command(name: string, args: seq<string>)

  /** exec.Command(split[0], split[1:]...) for split := strings.Split(line, " "). */
  function CommandFromLine(line: string): (r: Command)
    ensures Join([r.name] + r.args, ' ') == line
    ensures ' ' !in r.name && forall k | 0 <= k < |r.args| :: ' ' !in r.args[k]
    ensures [r.name] + r.args == Split(line, ' ')
  {
    var words := Split(line, ' ');
    JoinSplit(line, ' ');
    assert [words[0]] + words[1..] == words;
    Command(words[0], words[1..])
  }

  function UseraddLine(username: string): string {
    "useradd --system --no-create-home --shell /bin/false " + username
  }

  function AdduserLine(username: string): string {
    "adduser -S -D -H -G " + username + " -s /bin/false " + username
  }

  /** The commands that create the account, in the order they run: on a
      release whose ID starts with "alpine" the group is created first and
      the user with adduser, elsewhere useradd alone. The adduser and useradd
      lines are formatted first and then split on spaces. */
  function CreationCommands(sysName: string, username: string): (r: seq<Command>)
    ensures |r| == if "alpine" <= sysName then 2 else 1
    ensures "alpine" <= sysName ==> r[0] == Command("addgroup", ["-S", username])
    ensures Join([r[|r| - 1].name] + r[|r| - 1].args, ' ') ==
      if "alpine" <= sysName then AdduserLine(username) else UseraddLine(username)
    ensures [r[|r| - 1].name] + r[|r| - 1].args ==
      Split(if "alpine" <= sysName then AdduserLine(username) else UseraddLine(username), ' ')
  {
    if "alpine" <= sysName then
      [Command("addgroup", ["-S", username]), CommandFromLine(AdduserLine(username))]
    else
      [CommandFromLine(UseraddLine(username))]
  }

  /** For a user name without a space the split command lines give exactly
      the argument vectors of the format strings, the name being one argument. */
  lemma CreationCommandsArguments(sysName: string, username: string)
    requires ' ' !in username
    ensures "alpine" <= sysName ==>
      (CreationCommands(sysName, username) ==
       [Command("addgroup", ["-S", username]),
        Command("adduser", ["-S", "-D", "-H", "-G", username, "-s", "/bin/false", username])])
    ensures !("alpine" <= sysName) ==>
      (CreationCommands(sysName, username) ==
       [Command("useradd", ["--system", "--no-create-home", "--shell", "/bin/false", username])])
  {
    UseraddWords(username);
    SplitJoin(UseraddArgv(username), ' ');
    AdduserWords(username);
    SplitJoin(AdduserArgv(username), ' ');
  }

  function UseraddArgv(username: string): seq<string> {
    ["useradd", "--system", "--no-create-home", "--shell", "/bin/false", username]
  }

  function AdduserArgv(username: string): seq<string> {
    ["adduser", "-S", "-D", "-H", "-G", username, "-s", "/bin/false", username]
  }

  /** Appending a word to a non-empty list appends a separator and the word. */
  lemma {:induction false} JoinSnoc(words: seq<string>, w: string, sep: char)
    requires words != []
    ensures Join(words + [w], sep) == Join(words, sep) + [sep] + w
    decreases |words|
  {
    if |words| > 1 {
      JoinSnoc(words[1..], w, sep);
      assert (words + [w])[1..] == words[1..] + [w];
    }
  }

  lemma UseraddWords(username: string)
    ensures Join(UseraddArgv(username), ' ') == UseraddLine(username)
  {
    var w := UseraddArgv(username);
    assert w[..4] == ["useradd", "--system", "--no-create-home", "--shell"];
    UseraddOptions();
    JoinSnoc(w[..4], w[4], ' ');
    assert w[..5] == w[..4] + [w[4]];
    var head := "useradd --system --no-create-home --shell /bin/false";
    assert head == "useradd --system --no-create-home --shell" + " " + "/bin/false";
    assert Join(w[..5], ' ') == head;
    JoinSnoc(w[..5], w[5], ' ');
    assert w == w[..5] + [w[5]];
    assert head + " " == "useradd --system --no-create-home --shell /bin/false ";
  }

  lemma UseraddOptions()
    ensures Join(["useradd", "--system", "--no-create-home", "--shell"], ' ')
      == "useradd --system --no-create-home --shell"
  {
    var w := ["useradd", "--system", "--no-create-home", "--shell"];
    assert Join(w[..1], ' ') == "useradd";
    JoinSnoc(w[..1], w[1], ' ');
    assert w[..2] == w[..1] + [w[1]];
    assert "useradd --system" == "useradd" + " " + "--system";
    JoinSnoc(w[..2], w[2], ' ');
    assert w[..3] == w[..2] + [w[2]];
    assert "useradd --system --no-create-home" == "useradd --system" + " " + "--no-create-home";
    JoinSnoc(w[..3], w[3], ' ');
    assert w == w[..3] + [w[3]];
    assert "useradd --system --no-create-home --shell"
      == "useradd --system --no-create-home" + " " + "--shell";
  }

  lemma AdduserWords(username: string)
    ensures Join(AdduserArgv(username), ' ') == AdduserLine(username)
  {
    var w := AdduserArgv(username);
    var u := username;
    assert Join(w[..1], ' ') == "adduser";
    JoinSnoc(w[..1], w[1], ' ');
    assert w[..2] == w[..1] + [w[1]];
    assert "adduser -S" == "adduser" + " " + "-S";
    JoinSnoc(w[..2], w[2], ' ');
    assert w[..3] == w[..2] + [w[2]];
    assert "adduser -S -D" == "adduser -S" + " " + "-D";
    JoinSnoc(w[..3], w[3], ' ');
    assert w[..4] == w[..3] + [w[3]];
    assert "adduser -S -D -H" == "adduser -S -D" + " " + "-H";
    JoinSnoc(w[..4], w[4], ' ');
    assert w[..5] == w[..4] + [w[4]];
    assert "adduser -S -D -H -G" == "adduser -S -D -H" + " " + "-G";
    JoinSnoc(w[..5], u, ' ');
    assert w[..6] == w[..5] + [u];
    assert "adduser -S -D -H -G " == "adduser -S -D -H -G" + " ";
    var head := "adduser -S -D -H -G " + u;
    assert Join(w[..6], ' ') == head;
    JoinSnoc(w[..6], w[6], ' ');
    assert w[..7] == w[..6] + [w[6]];
    JoinSnoc(w[..7], w[7], ' ');
    assert w[..8] == w[..7] + [w[7]];
    JoinSnoc(w[..8], u, ' ');
    assert w == w[..8] + [u];
    assert " -s /bin/false " == " " + "-s" + " " + "/bin/false" + " ";
  }

  // ---------------------------------------------------------------------
  // Running the commands and deciding the outcome

  /** The commands started, in order, and the outcome of the last one. */
  datatype Run = Run(started: seq<Command>, outcome: Outcome)

  /** Runs `cmds` in order and stops at the first failure. `exec` gives the
      outcome the operating system reports for each command. */
  function RunInOrder(cmds: seq<Command>, exec: Command -> Outcome): (r: Run)
    ensures r.started <= cmds
    ensures forall k | 0 <= k < |r.started| - 1 :: exec(r.started[k]).Pass?
    ensures r.outcome.Fail? ==> r.started != [] && exec(r.started[|r.started| - 1]) == r.outcome
    ensures r.outcome.Pass? ==> r.started == cmds && forall k | 0 <= k < |cmds| :: exec(cmds[k]).Pass?
    decreases |cmds|
  {
    if cmds == [] then Run([], Pass)
    else if exec(cmds[0]).Fail? then Run([cmds[0]], exec(cmds[0]))
    else
      var rest := RunInOrder(cmds[1..], exec);
      Run([cmds[0]] + rest.started, rest.outcome)
  }

  /** What one EnsurePterodactylUser call does before it records the user:
      the commands it ran, and the user found or the error it returns. */
  datatype Provisioning = Provisioning(executed: seq<Command>, result: Result<User>)

  /** The decision procedure of EnsurePterodactylUser. `lookup` is the outcome
      of the first user.Lookup of `username`, `release` that of reading the
      release ID, `exec` that of each command, and `relookup` that of the
      second lookup after the account was created. */
  function Provision(username: string, lookup: Result<User>, release: Result<string>,
                     exec: Command -> Outcome, relookup: Result<User>): (p: Provisioning)
    // an existing account is used as it is and nothing runs
    ensures lookup.Ok? ==> p == Provisioning([], lookup)
    // a lookup failure other than an unknown user is returned as it is
    ensures lookup.Err? && !lookup.error.UnknownUserError? ==> p == Provisioning([], lookup)
    // commands run only for an unknown user once the release ID is known,
    // and they are the creation commands for that release, in order
    ensures p.executed != [] <==>
      lookup.Err? && lookup.error.UnknownUserError? && release.Ok?
    ensures release.Ok? ==> p.executed <= CreationCommands(release.value, username)
    ensures forall k | 0 <= k < |p.executed| - 1 :: exec(p.executed[k]).Pass?
    // the call succeeds with the user found first, or with the user found
    // again after every creation command succeeded
    ensures p.result.Ok? ==>
      || lookup == p.result
      || (&& release.Ok?
          && p.executed == CreationCommands(release.value, username)
          && (forall k | 0 <= k < |p.executed| :: exec(p.executed[k]).Pass?)
          && relookup == p.result)
    // any failure is returned unchanged: the lookup's, the release read's,
    // the failing command's or the second lookup's
    ensures p.result.Err? ==>
      || lookup == p.result
      || release == Err(p.result.error)
      || (p.executed != [] && exec(p.executed[|p.executed| - 1]) == Fail(p.result.error))
      || relookup == p.result
    // for an unknown user, a failed release read is returned with nothing run
    ensures lookup.Err? && lookup.error.UnknownUserError? && release.Err? ==>
      p == Provisioning([], Err(release.error))
    // otherwise the creation commands run until the first failure, whose
    // error is returned; when all of them pass the second lookup decides
    ensures lookup.Err? && lookup.error.UnknownUserError? && release.Ok? ==>
      var run := RunInOrder(CreationCommands(release.value, username), exec);
      && p.executed == run.started
      && p.result == (if run.outcome.Fail? then Err(run.outcome.error) else relookup)
  {
    match lookup
    case Ok(_) => Provisioning([], lookup)
    case Err(e) =>
      if !e.UnknownUserError? then Provisioning([], lookup)
      else match release
        case Err(re) => Provisioning([], Err(re))
        case Ok(sysName) =>
          var run := RunInOrder(CreationCommands(sysName, username), exec);
          if run.outcome.Fail? then Provisioning(run.started, Err(run.outcome.error))
          else Provisioning(run.started, relookup)
  }
}
