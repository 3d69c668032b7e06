/**
 The action resolver of the server: `launch_app` and its fallback to a web
 address (`try_launch_app`, `open_for_app`), the web search
 (`search_for_app`) and `open_url`. Starting a process is the one effect; the
 operating system is the parameter `run`, which says what each argument
 vector yields, and every operation reports the argument vectors it started,
 in order.
 */
module Resolver {
  import opened Wrappers
  import opened Text

  /** The target the program is built for (its `cfg!(target_os = ...)`). */
  datatype Platform = Linux | MacOS | Windows

  /**
   What starting a process and waiting for it yields: an `std::io::Error`
   (the program could not be spawned or waited for) or an exit status.
   */
  datatype Exit = IoError | Exited(success: bool)

  /** A program followed by its arguments. */
  type Argv = seq<string>

  /** The operating system as the program sees it. */
  type Runner = Argv -> Exit

  /** A value, and the processes started to compute it, in the order they were started. */
  datatype Traced<T> = Traced(value: T, invoked: seq<Argv>)

  /** The `std::io::Error` of `launch_app`: one passed up by `?`, or its own "Failed to launch". */
  datatype LaunchError = Io | FailedToLaunch

  const LaunchingApp := "Launching app: "
  const LaunchingViaGtk := "Launching via gtk-launch: "
  const AppNotFound := "App not found. Opening: "
  const SearchingFor := "Searching for: "
  const FailedToOpen := "Failed to launch or open: "
  const GoogleSearch := "https://www.google.com/search?q="

  /** The process `launch_app` starts first. */
  function LaunchArgv(platform: Platform, name: string): (argv: Argv)
    ensures |argv| >= 1 && argv[|argv| - 1] == name
  {
    match platform
    case Linux => [name]
    case MacOS => ["open", "-a", name]
    case Windows => ["cmd", "/C", "start", "", name]
  }

  /** The process `launch_app` starts on Linux when the first one exits unsuccessfully. */
  function GtkLaunchArgv(name: string): (argv: Argv)
    ensures |argv| == 2 && argv[0] == "gtk-launch" && argv[1] == name
    ensures argv != LaunchArgv(Linux, name)
  {
    ["gtk-launch", name]
  }

  /** The process `open_url` starts. */
  function OpenerArgv(platform: Platform, url: string): (argv: Argv)
    ensures |argv| >= 2 && argv[|argv| - 1] == url
  {
    match platform
    case Windows => ["cmd", "/C", "start", "", url]
    case MacOS => ["open", url]
    case Linux => ["xdg-open", url]
  }

  /**
   `launch_app`. On Linux the program itself is spawned and waited for; only
   when that works but the exit status is non-success is `gtk-launch` tried.
   An I/O error at either step ends the chain with `Err`. On macOS and Windows
   there is one step.
   */
  function LaunchApp(platform: Platform, name: string, run: Runner): (r: Traced<Result<string, LaunchError>>)
    ensures 1 <= |r.invoked| <= 2 && r.invoked[0] == LaunchArgv(platform, name)
    ensures |r.invoked| == 2 <==> platform == Linux && run([name]) == Exited(false)
    ensures |r.invoked| == 2 ==> r.invoked[1] == GtkLaunchArgv(name)
    ensures r.value == Ok(LaunchingApp + name) <==> run(LaunchArgv(platform, name)) == Exited(true)
    ensures r.value == Ok(LaunchingViaGtk + name) <==> |r.invoked| == 2 && run(GtkLaunchArgv(name)) == Exited(true)
    ensures r.value == Err(Io) <==> run(r.invoked[|r.invoked| - 1]) == IoError
    ensures r.value == Err(FailedToLaunch) <==>
              run(r.invoked[|r.invoked| - 1]) == Exited(false) && (platform != Linux || |r.invoked| == 2)
  {
    assert (LaunchingApp + name)[10] != (LaunchingViaGtk + name)[10];
    var first := LaunchArgv(platform, name);
    match run(first)
    case IoError => Traced(Err(Io), [first])
    case Exited(success) =>
      if success then Traced(Ok(LaunchingApp + name), [first])
      else if platform != Linux then Traced(Err(FailedToLaunch), [first])
      else
        var gtk := GtkLaunchArgv(name);
        match run(gtk)
        case IoError => Traced(Err(Io), [first, gtk])
        case Exited(success) =>
          if success then Traced(Ok(LaunchingViaGtk + name), [first, gtk])
          else Traced(Err(FailedToLaunch), [first, gtk])
  }

  /** `open_url`: one opener process; its success gives `successMsg`, anything else the failure text. */
  function OpenUrl(platform: Platform, url: string, successMsg: string, run: Runner): (r: Traced<string>)
    ensures r.invoked == [OpenerArgv(platform, url)]
    ensures run(OpenerArgv(platform, url)) == Exited(true) ==> r.value == successMsg
    ensures run(OpenerArgv(platform, url)) != Exited(true) ==> r.value == FailedToOpen + url
  {
    var argv := OpenerArgv(platform, url);
    match run(argv)
    case Exited(true) => Traced(successMsg, [argv])
    case _ => Traced(FailedToOpen + url, [argv])
  }

  /** The web address `open_for_app` falls back to: the name as a `.com` domain. */
  function FallbackUrl(name: string): (url: string)
    ensures |url| == |name| + 13
    ensures url[..8] == "https://" && url[8..|url| - 5] == name && url[|url| - 5..] == ".com/"
    ensures ' ' !in name ==> ' ' !in url
  {
    "https://" + name + ".com/"
  }

  /** Distinct names give distinct fallback addresses. */
  lemma FallbackUrlInjective(a: string, b: string)
    requires FallbackUrl(a) == FallbackUrl(b)
    ensures a == b
  {
    var u := FallbackUrl(a);
    assert a == u[8..|u| - 5] == b;
  }

  /** `open_for_app`: opens the fallback address of `input`. */
  function OpenForApp(platform: Platform, input: string, run: Runner): (r: Traced<string>)
    ensures r.invoked == [OpenerArgv(platform, FallbackUrl(input))]
    ensures run(r.invoked[0]) == Exited(true) ==> r.value == AppNotFound + input
    ensures run(r.invoked[0]) != Exited(true) ==> r.value == FailedToOpen + FallbackUrl(input)
  {
    OpenUrl(platform, FallbackUrl(input), AppNotFound + input, run)
  }

  /** The Google query address for `input`, every space written as `+`. */
  function SearchUrl(input: string): (url: string)
    ensures |url| == |GoogleSearch| + |input|
    ensures url[..|GoogleSearch|] == GoogleSearch
    ensures ' ' !in url
    ensures forall k :: 0 <= k < |input| ==>
      url[|GoogleSearch| + k] == if input[k] == ' ' then '+' else input[k]
  {
    ReplaceRemoves(input, ' ', '+');
    GoogleSearch + Replace(input, ' ', '+')
  }

  /** A query without `+` is recovered from its address. */
  lemma SearchUrlDecodes(input: string)
    requires '+' !in input
    ensures Replace(SearchUrl(input)[|GoogleSearch|..], '+', ' ') == input
  {
    var url := SearchUrl(input);
    assert url[|GoogleSearch|..] == Replace(input, ' ', '+');
    ReplaceInverse(input, ' ', '+');
  }

  /** Two words separated by a space are joined by `+` in the query address. */
  lemma SearchUrlOfTwoWords(a: string, b: string)
    requires ' ' !in a && ' ' !in b
    ensures SearchUrl(a + " " + b) == GoogleSearch + a + "+" + b
  {
    var s := a + " " + b;
    var r := Replace(s, ' ', '+');
    forall k | 0 <= k < |s| ensures r[k] == (a + "+" + b)[k] {
      if k < |a| { assert s[k] == a[k]; } else if k > |a| { assert s[k] == b[k - |a| - 1]; }
    }
  }

  /**
   * `+` is not escaped: a query with `+` where another has a space gets the
   * same address, so the search cannot tell them apart.
   */
  lemma {:induction false} SearchUrlPlusIsSpace(a: string, b: string)
    ensures SearchUrl(a + "+" + b) == SearchUrl(a + " " + b)
  {
    var p, q := a + "+" + b, a + " " + b;
    var u, v := SearchUrl(p), SearchUrl(q);
    forall k | 0 <= k < |u| ensures u[k] == v[k] {
      if k >= |GoogleSearch| {
        var j := k - |GoogleSearch|;
        if j < |a| { assert p[j] == a[j] == q[j]; }
        else if j > |a| { assert p[j] == b[j - |a| - 1] == q[j]; }
      }
    }
  }

  /** `search_for_app`: opens the query address for `input`. */
  function SearchForApp(platform: Platform, input: string, run: Runner): (r: Traced<string>)
    ensures r.invoked == [OpenerArgv(platform, SearchUrl(input))]
    ensures run(r.invoked[0]) == Exited(true) ==> r.value == SearchingFor + input
    ensures run(r.invoked[0]) != Exited(true) ==> r.value == FailedToOpen + SearchUrl(input)
  {
    OpenUrl(platform, SearchUrl(input), SearchingFor + input, run)
  }

  /**
   `try_launch_app`: the spaces are taken out of the name; `launch_app`'s own
   message is returned when it succeeds, and only when it fails is the
   fallback address opened.
   */
  function TryLaunchApp(platform: Platform, appName: string, run: Runner): (r: Traced<string>)
    ensures var name := RemoveSpaces(appName);
            var l := LaunchApp(platform, name, run);
            && l.invoked <= r.invoked
            && (l.value.Ok? ==> r.value == l.value.value && r.invoked == l.invoked)
            && (l.value.Err? ==> r == OpenForApp(platform, name, run).(invoked := l.invoked + [OpenerArgv(platform, FallbackUrl(name))]))
  {
    var name := RemoveSpaces(appName);
    var l := LaunchApp(platform, name, run);
    match l.value
    case Ok(msg) => Traced(msg, l.invoked)
    case Err(_) =>
      var o := OpenForApp(platform, name, run);
      Traced(o.value, l.invoked + o.invoked)
  }

  /**
   The fallback address is opened exactly when `launch_app` failed: no
   process `launch_app` starts is the opener of that address.
   */
  lemma FallbackOnlyAfterLaunchFails(platform: Platform, appName: string, run: Runner)
    ensures var name := RemoveSpaces(appName);
            OpenerArgv(platform, FallbackUrl(name)) in TryLaunchApp(platform, appName, run).invoked
            <==> LaunchApp(platform, name, run).value.Err?
  {
    var name := RemoveSpaces(appName);
    var l := LaunchApp(platform, name, run);
    var opener := OpenerArgv(platform, FallbackUrl(name));
    assert opener != LaunchArgv(platform, name) by {
      if platform == Windows { assert opener[4] != name; }
    }
    assert opener != GtkLaunchArgv(name) by { assert opener[0] != "gtk-launch"; }
    assert opener !in l.invoked;
  }

  /**
   The whole Linux chain of `try_launch_app`, given what each of its three
   possible processes yields: the program itself, `gtk-launch`, and
   `xdg-open` on the fallback address.
   */
  lemma TryLaunchAppLinux(appName: string, run: Runner)
    ensures var name := RemoveSpaces(appName);
            var url := FallbackUrl(name);
            var direct, gtk, opener := run([name]), run(["gtk-launch", name]), run(["xdg-open", url]);
            var fallback := if opener == Exited(true) then AppNotFound + name else FailedToOpen + url;
            TryLaunchApp(Linux, appName, run) ==
              if direct == Exited(true) then Traced(LaunchingApp + name, [[name]])
              else if direct == IoError then Traced(fallback, [[name], ["xdg-open", url]])
              else if gtk == Exited(true) then Traced(LaunchingViaGtk + name, [[name], ["gtk-launch", name]])
              else Traced(fallback, [[name], ["gtk-launch", name], ["xdg-open", url]])
  {
    var name := RemoveSpaces(appName);
    var l := LaunchApp(Linux, name, run);
    if run([name]) == Exited(false) {
      assert |l.invoked| == 2;
    } else {
      assert |l.invoked| == 1;
    }
  }
}
