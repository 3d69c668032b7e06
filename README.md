# pc-server-command: command parsing and launch fallback, in Dafny

The server accepts a posted text command such as `open notepad` or
`search rust programming` and turns it into one reply string. The model
covers every step of that pipeline in `src/main.rs`:

- **Normalisation** (`handle_command`): the body is trimmed and lowercased.
- **Prefix parsing** (`parse_prefix`): the first prefix in list order that
  starts the command is stripped, and the rest is trimmed. The open prefixes
  are `"open "`, `"เปิด "`, `"open"` and `"เปิด"`. The search prefixes are
  `"search "`, `"ค้นหา "`, `"search"` and `"ค้นหา"`. The search prefixes are
  consulted only when no open prefix matched. A command that matches neither
  group gets the reply `Invalid command.` and starts no process.
- **Launching** (`try_launch_app`, `launch_app`): the spaces are removed from
  the application name. `launch_app` is then tried for the target platform.
  On Linux the name itself is spawned and waited for. Only when that works
  but exits unsuccessfully is `gtk-launch <name>` run. An I/O error at either
  step gives `Err` at once. On macOS (`open -a`) and Windows
  (`cmd /C start "" <name>`) there is a single step. Only when `launch_app`
  returns `Err` is the web address `https://<name>.com/` opened.
- **Search** (`search_for_app`): the query address is
  `https://www.google.com/search?q=` followed by the text with every space
  written as `+`.
- **Opening a URL** (`open_url`): one opener process (`xdg-open`, `open`, or
  `cmd /C start ""`). Its successful exit gives the caller's success message.
  Anything else gives `Failed to launch or open: <url>`.

Process launches are not performed. The operating system is the parameter
`run: seq<string> -> Exit`. It tells, for each argument vector, whether
starting and waiting for it failed with an I/O error or exited with a
successful or unsuccessful status. Every resolver function returns a
`Traced` value: its result and the argument vectors it started, in order.
Claims about fallback order ("`gtk-launch` only after a non-success exit",
"the fallback address only after `launch_app` failed") are therefore
stated over that list.

Modules: `Wrappers` (Option, Result), `Text` (trim, lowercase, strip
prefix, replace), `Parser` (prefix lists, `parse_prefix`, normalisation,
intent), `Resolver` (launch chain, URLs, `open_url`) and `Server`
(`handle_command`).

Facts of `src/main.rs` the model keeps as written:
- The reply texts are the code's own, for example `Launching app: <name>`,
  `Launching via gtk-launch: <name>` and `Invalid command.`.
- The launcher fallback (`gtk-launch`) exists only on Linux; macOS and
  Windows try a single launcher process.
- A `+` in a search query is not escaped, so a query with `+` and the same
  query with a space there give the same address
  (`Resolver.SearchUrlPlusIsSpace`).

## Model

| member | source | states |
|---|---|---|
| Text.IsWhitespace | src/main.rs:35 | the characters `trim` cuts off: exactly those with the Unicode White_Space property, as `char::is_whitespace` |
| Text.AsciiWhitespace | src/main.rs:54 | among ASCII characters, whitespace is space and tab through carriage return; the zero-width space is not whitespace |
| Text.LeadingWhitespace | src/main.rs:35 | the length of the leading whitespace run: everything before it is whitespace, the character at it is not |
| Text.TrailingWhitespaceStart | src/main.rs:35 | where the trailing whitespace run begins: everything from it on is whitespace, the character before it is not |
| Text.Trim | src/main.rs:35 | `trim` returns a slice of the input with no whitespace at either end and only whitespace (Unicode White_Space, as `char::is_whitespace`) cut off on both sides |
| Text.TrimUnique | src/main.rs:35 | any trimmed slice with only whitespace around it is what `trim` returns, so the contract of `Trim` determines it |
| Text.TrimOfTrimmed | src/main.rs:54 | text without whitespace at either end is its own trim |
| Text.TrimIdempotent | src/main.rs:35 | trimming twice is trimming once |
| Text.TrimSkipsLeadingWhitespace | src/main.rs:54 | a whitespace character in front does not change the trim, which is why `"open "` and `"open"` give the same argument |
| Text.LowerChar | src/main.rs:35 | lowercasing a character leaves no ASCII capital, keeps whitespace as whitespace, and changes only `A`-`Z`, each by 32 |
| Text.Lower | src/main.rs:35 | `to_lowercase` keeps the length and lowercases each character in place |
| Text.LowerIdempotent | src/main.rs:35 | lowercasing twice is lowercasing once, and the result has no ASCII capital |
| Text.LowerNoCapitals | src/main.rs:35 | text without ASCII capitals is its own lowercase |
| Text.LowerKeepsTrimmed | src/main.rs:35 | lowercasing a trimmed string leaves it trimmed |
| Text.StripPrefix | src/main.rs:54 | `strip_prefix` succeeds exactly when the prefix starts the string, and prefix plus remainder give back the string |
| Text.RemoveSpaces | src/main.rs:59 | `replace(' ', "")` leaves no space and keeps every other character with its multiplicity |
| Text.RemoveSpacesConcat | src/main.rs:59 | removal works piece by piece, so the other characters keep their order |
| Text.RemoveSpacesNoop | src/main.rs:59 | a name without spaces is left as it is |
| Text.RemoveSpacesJoin | src/main.rs:59 | two words separated by a space become one word |
| Text.Replace | src/main.rs:104 | `replace(c, d)` for characters keeps the length and puts `d` exactly where `c` was |
| Text.ReplaceRemoves | src/main.rs:104 | after replacing `c` by another character, `c` no longer occurs |
| Text.ReplaceInverse | src/main.rs:104 | replacing back undoes the replacement when the new character did not occur before |
| Parser.OpenPrefixes | src/main.rs:38 | the open prefixes `open `, `เปิด `, `open`, `เปิด`, in this order |
| Parser.SearchPrefixes | src/main.rs:39 | the search prefixes `search `, `ค้นหา `, `search`, `ค้นหา`, in this order |
| Parser.PrefixListsShape | src/main.rs:38-39 | each list has four prefixes and tries a word with its trailing space before the bare word; no command starts with both an open and a search prefix |
| Parser.ParsePrefix | src/main.rs:52-56 | `None` exactly when no listed prefix starts the command; otherwise the trimmed remainder after the first prefix in list order that does, and that remainder has no whitespace at either end |
| Parser.ParsePrefixFirstMatch | src/main.rs:52-56 | the first matching prefix in list order decides the result, whatever the later prefixes are |
| Parser.Normalize | src/main.rs:35 | the matched command has no whitespace at either end and no ASCII capital, and is no longer than the body |
| Parser.NormalizeIdempotent | src/main.rs:35 | normalising a normalised command changes nothing |
| Parser.Classify | src/main.rs:38-47 | the command is invalid exactly when no open and no search prefix starts it; a search is chosen only when no open prefix starts it; the argument is trimmed |
| Parser.ClassifyOpenPrefix | src/main.rs:38-42 | every open prefix followed by any text is an open command for that text, trimmed (so `openoffice` opens `office`) |
| Parser.ClassifySearchPrefix | src/main.rs:39-45 | every search prefix followed by any text is a search for that text, trimmed |
| Resolver.LaunchError | src/main.rs:66-77 | the two ways `launch_app` fails: an I/O error from `spawn`, `wait` or `status`, or the error made after every launcher exited unsuccessfully |
| Resolver.LaunchArgv | src/main.rs:66-96 | the first process `launch_app` starts on each platform ends with the application name |
| Resolver.GtkLaunchArgv | src/main.rs:73 | the Linux fallback process is `gtk-launch` with the application name as its one argument, a different process from the direct launch |
| Resolver.OpenerArgv | src/main.rs:108-117 | the opener process on each platform ends with the URL |
| Resolver.LaunchApp | src/main.rs:66-97 | the first step is always the platform's launch; `gtk-launch` is started exactly on Linux after a non-success exit; `Ok("Launching app: ...")` exactly when the first step succeeds, `Ok("Launching via gtk-launch: ...")` exactly when `gtk-launch` succeeds; `Err` from an I/O error of the last step or from its non-success exit |
| Resolver.OpenUrl | src/main.rs:108-121 | exactly one opener process is started; its successful exit gives the success message, an I/O error or non-success exit gives `Failed to launch or open: <url>` |
| Resolver.FallbackUrl | src/main.rs:100 | the address is `https://`, the name and `.com/`, the name can be read back from it, and it has no space when the name has none |
| Resolver.FallbackUrlInjective | src/main.rs:100 | distinct names give distinct fallback addresses |
| Resolver.OpenForApp | src/main.rs:99-101 | opens the fallback address; success gives `App not found. Opening: <name>`, anything else the failure text for that address |
| Resolver.SearchUrl | src/main.rs:104 | the query address is the Google search prefix followed by the input with every space written as `+` and every other character kept in place; it contains no space |
| Resolver.SearchUrlDecodes | src/main.rs:104 | for a query without `+`, writing `+` back as space recovers the query from the address |
| Resolver.SearchUrlOfTwoWords | src/main.rs:104 | two words separated by a space are joined by `+` in the address |
| Resolver.SearchUrlPlusIsSpace | src/main.rs:104 | `+` is not escaped: a query with `+` and the same query with a space there give the same address |
| Resolver.SearchForApp | src/main.rs:103-106 | opens the query address; success gives `Searching for: <input>`, anything else the failure text for that address |
| Resolver.TryLaunchApp | src/main.rs:58-64 | the launch attempts come first; `launch_app`'s `Ok` message is returned unchanged with nothing else started; on `Err` the fallback address of the space-free name is opened after them |
| Resolver.FallbackOnlyAfterLaunchFails | src/main.rs:58-64 | the fallback address is opened exactly when `launch_app` returned `Err` |
| Resolver.TryLaunchAppLinux | src/main.rs:58-78 | the whole Linux chain as a function of the three step results: a spawn or wait error skips `gtk-launch` and goes to the fallback address; `gtk-launch` success stops before the fallback address |
| Server.HandleCommand | src/main.rs:34-50 | the reply is `Invalid command.` exactly when the normalised command is invalid, and then no process is started; an open command starts with launching the space-free name; a search opens only the query address |
| Server.TryLaunchReplyIsValid | src/main.rs:41-47 | the reply to an open command is never `Invalid command.` |
| Server.HandleOpenCommand | src/main.rs:35-42 | a normalised command starting with an open prefix is answered by launching its trimmed rest |
| Server.HandleSearchCommand | src/main.rs:35-45 | a normalised command starting with a search prefix, and none of the open ones, is answered by searching for its trimmed rest |
| Server.NormalizeNormal | src/main.rs:35 | a body already trimmed and without ASCII capitals is matched as it is |
| Server.SearchTwoWords | src/main.rs:34-47 | `search <a> <b>` searches for `<a> <b>`, with the address joining the words by `+` |
| Server.OpenTwoWords | src/main.rs:34-64 | `open <a> <b>` tries to launch the single name `<a><b>` |
| Server.InvalidScenario | src/main.rs:45 | `xyz` is answered with `Invalid command.` and starts nothing |

## Left out

- The HTTP route, the server loop, local IP discovery, the start-up messages and JSON decoding of the request body (`main`, `CommandRequest`): network and I/O. The model starts from the command text.
- The `Received command` log line: output only.
- The HTTP status of the reply: it is always 200 OK, so only the reply text is modelled.
- Starting processes (`Command::spawn`, `wait`, `status`): these are foreign calls. The parameter `run` gives each argument vector's result. `spawn()?.wait()?` is one step, so a spawn error and a wait error are both `IoError`. That the Linux first step blocks until the launched program exits is not modelled.
- The choice of platform at build time (`cfg!`, `#[cfg]`): the platform is a parameter of the model.
- Text.LowerChar: models only the ASCII part of `to_lowercase` for one character; a non-ASCII capital is returned unchanged.
- Text.Lower: models only the ASCII part of `to_lowercase`. Characters outside `A`-`Z` are left unchanged, including non-ASCII capitals and the few characters whose lowercase form is longer. Every prefix the parser knows is unaffected by this.
- No debouncing: `handle_command` answers each request as it arrives; the source has no shared state and no timer.
