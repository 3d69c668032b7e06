/**
 `handle_command`: the reply the server gives to one posted command. The
 command is normalized, classified by its prefix, and handed to the
 resolver; a command with no known prefix starts no process at all.
 */
module Server {
  import opened Text
  import opened Parser
  import opened Resolver

  const InvalidCommand := "Invalid command."

  /** The reply text of `handle_command` for the posted `body`, with the processes it started. */
  function HandleCommand(platform: Platform, body: string, run: Runner): (r: Traced<string>)
    ensures r.value == InvalidCommand <==> Classify(Normalize(body)) == Invalid
    ensures r.invoked == [] <==> Classify(Normalize(body)) == Invalid
    ensures Classify(Normalize(body)).Open? ==>
              |r.invoked| >= 1 && r.invoked[0] == LaunchArgv(platform, RemoveSpaces(Classify(Normalize(body)).app))
    ensures Classify(Normalize(body)).Search? ==>
              r.invoked == [OpenerArgv(platform, SearchUrl(Classify(Normalize(body)).query))]
  {
    var command := Normalize(body);
    match Classify(command)
    case Open(input) =>
      TryLaunchReplyIsValid(platform, input, run);
      TryLaunchApp(platform, input, run)
    case Search(input) =>
      var r := SearchForApp(platform, input, run);
      assert r.value[0] != InvalidCommand[0];
      r
    case Invalid => Traced(InvalidCommand, [])
  }

  /** The reply of an open command is never the invalid-command text. */
  lemma TryLaunchReplyIsValid(platform: Platform, input: string, run: Runner)
    ensures TryLaunchApp(platform, input, run).value != InvalidCommand
  {
    var r := TryLaunchApp(platform, input, run);
    var name := RemoveSpaces(input);
    var l := LaunchApp(platform, name, run);
    if l.value.Ok? {
      assert r.value[0] == 'L';
    } else {
      var o := OpenForApp(platform, name, run);
      assert r.value == o.value;
      assert r.value[0] != 'I';
    }
  }

  /** A normalized command starting with an open prefix launches the rest of it. */
  lemma HandleOpenCommand(platform: Platform, body: string, p: string, rest: string, run: Runner)
    requires p in OpenPrefixes && Normalize(body) == p + rest
    ensures HandleCommand(platform, body, run) == TryLaunchApp(platform, Trim(rest), run)
  {
    ClassifyOpenPrefix(p, rest);
  }

  /** A normalized command starting with a search prefix searches for the rest of it. */
  lemma HandleSearchCommand(platform: Platform, body: string, p: string, rest: string, run: Runner)
    requires p in SearchPrefixes && Normalize(body) == p + rest
    ensures HandleCommand(platform, body, run) == SearchForApp(platform, Trim(rest), run)
  {
    ClassifySearchPrefix(p, rest);
  }

  /** Text that needs no normalizing: no whitespace at either end, no ASCII capital. */
  predicate Normal(s: string) {
    Trimmed(s) && forall k :: 0 <= k < |s| ==> !('A' <= s[k] <= 'Z')
  }

  lemma NormalizeNormal(s: string)
    requires Normal(s)
    ensures Normalize(s) == s
  {
    TrimOfTrimmed(s);
    LowerNoCapitals(s);
  }

  /** Concatenation regrouped: a keyword before two words joined by a space. */
  lemma JoinWords(keyword: string, a: string, b: string)
    ensures keyword + (a + " " + b) == keyword + a + " " + b
  {
  }

  /** A lowercase keyword and two lowercase words, separated by a space, are matched as they are. */
  lemma NormalizeTwoWords(keyword: string, a: string, b: string)
    requires keyword != [] && !IsWhitespace(keyword[0]) && forall k :: 0 <= k < |keyword| ==> !('A' <= keyword[k] <= 'Z')
    requires a != [] && b != [] && Normal(a) && Normal(b)
    ensures Normalize(keyword + (a + " " + b)) == keyword + (a + " " + b)
  {
    var rest := a + " " + b;
    var body := keyword + rest;
    assert rest[|rest| - 1] == b[|b| - 1];
    assert body[0] == keyword[0] && body[|body| - 1] == rest[|rest| - 1];
    forall k | 0 <= k < |body| ensures !('A' <= body[k] <= 'Z') {
      if k < |keyword| { assert body[k] == keyword[k]; }
      else if k - |keyword| < |a| { assert body[k] == a[k - |keyword|]; }
      else if k - |keyword| > |a| { assert body[k] == b[k - |keyword| - |a| - 1]; }
    }
    NormalizeNormal(body);
  }

  /**
   "search <a> <b>" for two lowercase words searches for "<a> <b>", and the
   query address joins the words with `+`.
   */
  lemma SearchTwoWords(platform: Platform, a: string, b: string, run: Runner)
    requires a != [] && b != [] && Normal(a) && Normal(b) && ' ' !in a && ' ' !in b
    ensures HandleCommand(platform, "search " + a + " " + b, run) == SearchForApp(platform, a + " " + b, run)
    ensures SearchUrl(a + " " + b) == GoogleSearch + a + "+" + b
  {
    var rest := a + " " + b;
    var body := "search " + rest;
    assert HandleCommand(platform, body, run) == SearchForApp(platform, rest, run) by {
      NormalizeTwoWords("search ", a, b);
      assert rest[0] == a[0];
      TrimOfTrimmed(rest);
      HandleSearchCommand(platform, body, SearchPrefixes[0], rest, run);
    }
    JoinWords("search ", a, b);
    SearchUrlOfTwoWords(a, b);
  }

  /**
   "open <a> <b>" for two lowercase words tries to launch the single name
   "<a><b>": the space between the words is dropped before anything is started.
   */
  lemma OpenTwoWords(platform: Platform, a: string, b: string, run: Runner)
    requires a != [] && b != [] && Normal(a) && Normal(b) && ' ' !in a && ' ' !in b
    ensures HandleCommand(platform, "open " + a + " " + b, run) == TryLaunchApp(platform, a + " " + b, run)
    ensures RemoveSpaces(a + " " + b) == a + b
  {
    var rest := a + " " + b;
    var body := "open " + rest;
    assert HandleCommand(platform, body, run) == TryLaunchApp(platform, rest, run) by {
      NormalizeTwoWords("open ", a, b);
      assert rest[0] == a[0];
      TrimOfTrimmed(rest);
      HandleOpenCommand(platform, body, OpenPrefixes[0], rest, run);
    }
    JoinWords("open ", a, b);
    RemoveSpacesJoin(a, b);
  }

  /** "xyz" has no known prefix: the reply is the invalid-command text and nothing is started. */
  lemma InvalidScenario(platform: Platform, run: Runner)
    ensures HandleCommand(platform, "xyz", run) == Traced(InvalidCommand, [])
  {
    TrimOfTrimmed("xyz");
    assert Lower("xyz") == "xyz";
    assert Normalize("xyz") == "xyz";
  }
}
