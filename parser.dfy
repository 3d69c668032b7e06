/**
 The command parser of `handle_command`: the body is trimmed and lowercased,
 then matched against the open prefixes and, only if none of them matches,
 against the search prefixes.
 */
module Parser {
  import opened Wrappers
  import opened Text

  /** "open ", "เปิด ", "open", "เปิด", in this order. */
  const OpenPrefixes: seq<string> :=
    ["open ", "\U{E40}\U{E1B}\U{E34}\U{E14} ", "open", "\U{E40}\U{E1B}\U{E34}\U{E14}"]

  /** "search ", "ค้นหา ", "search", "ค้นหา", in this order. */
  const SearchPrefixes: seq<string> :=
    ["search ", "\U{E04}\U{E49}\U{E19}\U{E2B}\U{E32} ", "search", "\U{E04}\U{E49}\U{E19}\U{E2B}\U{E32}"]

  /**
   Each list tries a prefix with its trailing space before the same word
   without it, and no command starts with both an open and a search prefix.
   */
  lemma PrefixListsShape()
    ensures |OpenPrefixes| == 4 && |SearchPrefixes| == 4
    ensures forall k :: 0 <= k < 2 ==>
      OpenPrefixes[k] == OpenPrefixes[k + 2] + " " && SearchPrefixes[k] == SearchPrefixes[k + 2] + " "
    ensures forall command :: NoMatch(command, OpenPrefixes) || NoMatch(command, SearchPrefixes)
  {
    forall command | !NoMatch(command, OpenPrefixes)
      ensures NoMatch(command, SearchPrefixes)
    {
      var i :| 0 <= i < |OpenPrefixes| && OpenPrefixes[i] <= command;
      forall j | 0 <= j < |SearchPrefixes| ensures !(SearchPrefixes[j] <= command) {
        assert command[0] == OpenPrefixes[i][0] != SearchPrefixes[j][0];
      }
    }
  }

  /** `prefixes[i]` starts `command` and no earlier prefix in the list does. */
  predicate FirstMatchAt(command: string, prefixes: seq<string>, i: int) {
    && 0 <= i < |prefixes|
    && prefixes[i] <= command
    && forall j :: 0 <= j < i ==> !(prefixes[j] <= command)
  }

  /** No prefix of the list starts `command`. */
  predicate NoMatch(command: string, prefixes: seq<string>) {
    forall i :: 0 <= i < |prefixes| ==> !(prefixes[i] <= command)
  }

  /**
   `parse_prefix`: `find_map` over the prefixes, stripping the first one that
   starts the command and trimming what is left.
   */
  function ParsePrefix(command: string, prefixes: seq<string>): (r: Option<string>)
    ensures r.None? <==> NoMatch(command, prefixes)
    ensures r.Some? ==> exists i :: FirstMatchAt(command, prefixes, i)
                                    && r.value == Trim(command[|prefixes[i]|..])
    ensures r.Some? ==> Trimmed(r.value)
  {
    if prefixes == [] then None
    else
      match StripPrefix(command, prefixes[0])
      case Some(rest) =>
        assert rest == command[|prefixes[0]|..];
        assert FirstMatchAt(command, prefixes, 0);
        Some(Trim(rest))
      case None =>
        var r := ParsePrefix(command, prefixes[1..]);
        NoMatchShift(command, prefixes);
        if r.Some? then
          var i :| FirstMatchAt(command, prefixes[1..], i)
                   && r.value == Trim(command[|prefixes[1..][i]|..]);
          FirstMatchShift(command, prefixes, i);
          r
        else r
  }

  /** Without a match at the head, the list has a match exactly when its tail does. */
  lemma NoMatchShift(command: string, prefixes: seq<string>)
    requires prefixes != [] && !(prefixes[0] <= command)
    ensures NoMatch(command, prefixes) <==> NoMatch(command, prefixes[1..])
  {
    if NoMatch(command, prefixes[1..]) {
      forall i | 1 <= i < |prefixes| ensures !(prefixes[i] <= command) {
        assert prefixes[1..][i - 1] == prefixes[i];
      }
    }
  }

  /** Without a match at the head, the first match of the tail is the first match of the list. */
  lemma FirstMatchShift(command: string, prefixes: seq<string>, i: int)
    requires prefixes != [] && !(prefixes[0] <= command)
    requires FirstMatchAt(command, prefixes[1..], i)
    ensures FirstMatchAt(command, prefixes, i + 1) && prefixes[i + 1] == prefixes[1..][i]
  {
    forall j | 0 <= j < i + 1 ensures !(prefixes[j] <= command) {
      if j > 0 { assert prefixes[1..][j - 1] == prefixes[j]; }
    }
  }

  /** The first matching prefix decides the result of `ParsePrefix`. */
  lemma ParsePrefixFirstMatch(command: string, prefixes: seq<string>, k: int)
    requires FirstMatchAt(command, prefixes, k)
    ensures ParsePrefix(command, prefixes) == Some(Trim(command[|prefixes[k]|..]))
  {
    var r := ParsePrefix(command, prefixes);
    assert !NoMatch(command, prefixes);
    var i :| FirstMatchAt(command, prefixes, i) && r.value == Trim(command[|prefixes[i]|..]);
  }

  /** The command as matched: the body trimmed, then lowercased. */
  function Normalize(body: string): (c: string)
    ensures Trimmed(c)
    ensures |c| <= |body|
    ensures forall k :: 0 <= k < |c| ==> !('A' <= c[k] <= 'Z')
  {
    LowerKeepsTrimmed(Trim(body));
    Lower(Trim(body))
  }

  /** Normalizing an already normalized command changes nothing. */
  lemma NormalizeIdempotent(body: string)
    ensures Normalize(Normalize(body)) == Normalize(body)
  {
    var c := Normalize(body);
    TrimOfTrimmed(c);
    LowerIdempotent(Trim(body));
  }

  /** What the command asks for; `Invalid` when no prefix matches. */
  datatype Intent = Open(app: string) | Search(query: string) | Invalid

  /** The decision of `handle_command`: open prefixes first, then search prefixes. */
  function Classify(command: string): (i: Intent)
    ensures i == Invalid <==> NoMatch(command, OpenPrefixes) && NoMatch(command, SearchPrefixes)
    ensures i.Search? ==> NoMatch(command, OpenPrefixes)
    ensures i.Open? ==> Trimmed(i.app)
    ensures i.Search? ==> Trimmed(i.query)
  {
    match ParsePrefix(command, OpenPrefixes)
    case Some(input) => Open(input)
    case None =>
      match ParsePrefix(command, SearchPrefixes)
      case Some(input) => Search(input)
      case None => Invalid
  }

  /** Each open prefix followed by any text is an open command for that text, trimmed. */
  lemma ClassifyOpenPrefix(p: string, rest: string)
    requires p in OpenPrefixes
    ensures Classify(p + rest) == Open(Trim(rest))
  {
    var k :| 0 <= k < 4 && OpenPrefixes[k] == p;
    if k < 2 {
      ClassifyOpenSpaced(k, rest);
    } else if rest != [] && rest[0] == ' ' {
      ClassifyOpenBareSpace(k, rest);
    } else {
      ClassifyOpenBare(k, rest);
    }
  }

  /** An open prefix with its trailing space matches first among the prefixes that start the command. */
  lemma ClassifyOpenSpaced(k: nat, rest: string)
    requires k < 2
    ensures Classify(OpenPrefixes[k] + rest) == Open(Trim(rest))
  {
    var p := OpenPrefixes[k];
    var c := p + rest;
    assert c[..|p|] == p && c[|p|..] == rest;
    if k == 1 { assert !(OpenPrefixes[0] <= c) by { assert c[0] != 'o'; } }
    ParsePrefixFirstMatch(c, OpenPrefixes, k);
  }

  /** A bare open word not followed by a space is the first open prefix that starts the command. */
  lemma ClassifyOpenBare(k: nat, rest: string)
    requires 2 <= k < 4 && (rest == [] || rest[0] != ' ')
    ensures Classify(OpenPrefixes[k] + rest) == Open(Trim(rest))
  {
    var p := OpenPrefixes[k];
    var c := p + rest;
    assert c[..|p|] == p && c[|p|..] == rest;
    assert !(OpenPrefixes[k - 2] <= c);
    if k == 3 { assert c[0] == p[0]; }
    ParsePrefixFirstMatch(c, OpenPrefixes, k);
  }

  /**
   A bare open word followed by a space: the spaced form of the word matches
   first, and trimming makes the two results the same.
   */
  lemma ClassifyOpenBareSpace(k: nat, rest: string)
    requires 2 <= k < 4 && rest != [] && rest[0] == ' '
    ensures Classify(OpenPrefixes[k] + rest) == Open(Trim(rest))
  {
    var p := OpenPrefixes[k];
    var c := p + rest;
    var q := OpenPrefixes[k - 2];
    assert FirstMatchAt(c, OpenPrefixes, k - 2) by {
      assert q == p + " ";
      assert c[..|q|] == q;
      if k == 3 { assert !(OpenPrefixes[0] <= c) by { assert c[0] != 'o'; } }
    }
    assert Trim(c[|q|..]) == Trim(rest) by {
      assert |q| == |p| + 1;
      assert c[|q|..] == rest[1..];
      assert rest == [' '] + rest[1..];
      TrimSkipsLeadingWhitespace(' ', rest[1..]);
    }
    ParsePrefixFirstMatch(c, OpenPrefixes, k - 2);
  }

  /** Each search prefix followed by any text is a search for that text, trimmed. */
  lemma ClassifySearchPrefix(p: string, rest: string)
    requires p in SearchPrefixes
    ensures Classify(p + rest) == Search(Trim(rest))
  {
    var c := p + rest;
    var k :| 0 <= k < 4 && SearchPrefixes[k] == p;
    assert c[..|p|] == p && c[|p|..] == rest;
    assert NoMatch(c, OpenPrefixes) by {
      assert c[0] == p[0];
      forall i | 0 <= i < 4 ensures !(OpenPrefixes[i] <= c) {
        assert OpenPrefixes[i][0] != c[0];
      }
    }
    if k == 0 || k == 1 {
      if k == 1 { assert !(SearchPrefixes[0] <= c) by { assert c[0] != 's'; } }
      ParsePrefixFirstMatch(c, SearchPrefixes, k);
    } else if |rest| > 0 && rest[0] == ' ' {
      var q := SearchPrefixes[k - 2];
      assert q == p + " ";
      assert q <= c by { assert c[..|q|] == q; }
      assert c[|q|..] == rest[1..];
      assert rest == [' '] + rest[1..];
      TrimSkipsLeadingWhitespace(' ', rest[1..]);
      if k == 3 { assert !(SearchPrefixes[0] <= c) by { assert c[0] != 's'; } }
      ParsePrefixFirstMatch(c, SearchPrefixes, k - 2);
    } else {
      assert !(SearchPrefixes[k - 2] <= c);
      if k == 2 { assert c[0] == p[0] == 's'; }
      if k == 3 { assert c[0] == p[0] != 's'; }
      ParsePrefixFirstMatch(c, SearchPrefixes, k);
    }
  }
}
