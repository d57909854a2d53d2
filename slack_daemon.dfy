/**
 * The Slack remote-runner daemon's pure helpers and its table of pending approvals:
 * summarising and trimming command output for Slack, parsing the `run ...` commands,
 * single-quoting a prompt for the shell, the user allowlist, and dropping approval
 * requests older than thirty minutes. `Date.now()` is the parameter `now`.
 */
module SlackDaemon {
  import opened Wrappers
  import opened Text

  /** Thirty minutes, in milliseconds. */
  const ApprovalTtlMs := 30 * 60 * 1000

  // ---------------------------------------------------------------------------
  // textSummary
  // ---------------------------------------------------------------------------

  function Min(a: int, b: int): int {
    if a <= b then a else b
  }

  function Max(a: int, b: int): int {
    if a >= b then a else b
  }

  /** `s.slice(0, end)`: a negative end counts from the end of the string. */
  function SliceTo(s: string, end: int): (r: string)
    ensures |r| <= |s| && r == s[..|r|]
    ensures end >= 0 ==> |r| == Min(end, |s|)
  {
    if end < 0 then s[..Max(0, |s| + end)] else s[..Min(end, |s|)]
  }

  /** `textSummary(s, limit)`. */
  function TextSummary(s: string, limit: int): string {
    if s == "" then "(empty)"
    else if |s| <= limit then s
    else SliceTo(s, limit) + "..."
  }

  /** A summary of a non-empty text is the text itself when it fits the limit, and otherwise
    * the text's first `limit` characters followed by an ellipsis, three characters over. */
  lemma TextSummaryShape(s: string, limit: int)
    requires s != "" && limit >= 0
    ensures |s| <= limit ==> TextSummary(s, limit) == s
    ensures |s| > limit ==> TextSummary(s, limit) == s[..limit] + "..." && |TextSummary(s, limit)| == limit + 3
  {
  }

  /** An empty text is summarised by a placeholder, never by nothing. */
  lemma TextSummaryOfEmpty(limit: int)
    ensures TextSummary("", limit) == "(empty)"
  {
  }

  // ---------------------------------------------------------------------------
  // trimOutputForSlack
  // ---------------------------------------------------------------------------

  /** Drops one trailing carriage return. */
  function DropCr(p: string): (r: string)
    ensures r == p || (p == r + "\r")
    ensures forall c | c in r :: c in p
  {
    if |p| > 0 && p[|p| - 1] == '\r' then p[..|p| - 1] else p
  }

  /** `raw.split(/\r?\n/)`: the pieces between line feeds, each without the carriage return
    * that belongs to its line break. */
  function SplitLines(raw: string): (r: seq<string>)
    ensures |r| == |Split(raw, '\n')| && |r| >= 1
    ensures forall k | 0 <= k < |r| :: '\n' !in r[k]
  {
    var parts := Split(raw, '\n');
    seq(|parts|, k requires 0 <= k < |parts| => if k < |parts| - 1 then DropCr(parts[k]) else parts[k])
  }

  const Snip := "...(snip)..."

  /** `trimOutputForSlack(raw)`: up to forty lines are kept; longer output keeps its first and
    * last twenty lines around a snip marker. */
  function TrimOutputForSlack(raw: string): string {
    var lines := SplitLines(raw);
    var n := |lines|;
    if n <= 40 then Join(lines, "\n")
    else Join(lines[..20] + [Snip] + lines[n - 20..], "\n")
  }

  /** Output without carriage returns and with at most forty lines comes back unchanged. */
  lemma ShortOutputIsKept(raw: string)
    requires '\r' !in raw && |SplitLines(raw)| <= 40
    ensures TrimOutputForSlack(raw) == raw
  {
    var parts := Split(raw, '\n');
    SplitAvoids(raw, '\n', '\r');
    assert SplitLines(raw) == parts;
    JoinSplit(raw, '\n');
  }

  /** Longer output is cut to exactly forty-one lines: the first twenty, the snip marker, and
    * the last twenty. */
  lemma LongOutputIsCut(raw: string)
    requires |SplitLines(raw)| > 40
    ensures var lines := SplitLines(raw);
      Split(TrimOutputForSlack(raw), '\n') == lines[..20] + [Snip] + lines[|lines| - 20..]
  {
    var lines := SplitLines(raw);
    var kept := lines[..20] + [Snip] + lines[|lines| - 20..];
    forall k | 0 <= k < |kept| ensures '\n' !in kept[k] {
      if k > 20 {
        assert kept[k] == lines[|lines| - 20 + k - 21];
      }
    }
    SplitJoin(kept, '\n');
  }

  // ---------------------------------------------------------------------------
  // shellQuote
  // ---------------------------------------------------------------------------

  /** Each `'` replaced by `'\''`. */
  function EscapeQuotes(s: string): string {
    if s == "" then ""
    else if s[0] == '\'' then "'\\''" + EscapeQuotes(s[1..])
    else [s[0]] + EscapeQuotes(s[1..])
  }

  /** `shellQuote(s)`. */
  function ShellQuote(s: string): string {
    "'" + EscapeQuotes(s) + "'"
  }

  /** Characters that end or change an unquoted POSIX shell word. */
  predicate IsShellSpecial(c: char) {
    c in " \t\n;&|<>()$`\"*?[#~"
  }

  function Prepend(c: char, r: Option<string>): Option<string> {
    if r.Some? then Some([c] + r.value) else None
  }

  /** How the POSIX shell reads `w` as one word: the characters between single quotes are
    * taken literally, a backslash outside quotes takes the next character literally, and an
    * unquoted special character means the text is not one literal word (None). */
  function ShellWord(w: string, quoted: bool): Option<string>
    decreases |w|
  {
    if w == "" then (if quoted then None else Some(""))
    else if quoted then
      if w[0] == '\'' then ShellWord(w[1..], false) else Prepend(w[0], ShellWord(w[1..], true))
    else if w[0] == '\'' then ShellWord(w[1..], true)
    else if w[0] == '\\' then (if |w| >= 2 then Prepend(w[1], ShellWord(w[2..], false)) else None)
    else if IsShellSpecial(w[0]) then None
    else Prepend(w[0], ShellWord(w[1..], false))
  }

  lemma {:induction false} EscapedIsReadBack(s: string)
    ensures ShellWord(EscapeQuotes(s) + "'", true) == Some(s)
  {
    if s != "" {
      EscapedIsReadBack(s[1..]);
      var rest := EscapeQuotes(s[1..]) + "'";
      if s[0] == '\'' {
        var w := "'\\''" + rest;
        assert EscapeQuotes(s) + "'" == w;
        assert w[1..] == "\\''" + rest;
        assert w[1..][2..] == "'" + rest;
        assert ("'" + rest)[1..] == rest;
        assert ShellWord("'" + rest, false) == Some(s[1..]);
        assert ShellWord(w[1..], false) == Some("'" + s[1..]);
        assert ShellWord(w, true) == Some("'" + s[1..]);
      } else {
        var w := [s[0]] + rest;
        assert EscapeQuotes(s) + "'" == w;
        assert w[1..] == rest;
        assert ShellWord(w, true) == Prepend(s[0], ShellWord(rest, true));
      }
      assert [s[0]] + s[1..] == s;
    }
  }

  /** The shell reads a quoted text back as exactly that text, in one word, whatever quotes,
    * spaces or special characters it holds. */
  lemma ShellQuoteRoundTrip(s: string)
    ensures ShellWord(ShellQuote(s), false) == Some(s)
  {
    EscapedIsReadBack(s);
    assert ShellQuote(s)[1..] == EscapeQuotes(s) + "'";
  }

  // ---------------------------------------------------------------------------
  // parseRunCommand
  // ---------------------------------------------------------------------------

  datatype RunSpec = RunSpec(runLabel: string, shell: string)

  const CodexPrefix := "run codex "
  const ClaudePrefix := "run claude "

  /** `parseRunCommand(text)`: the two ship commands, `run codex <prompt>` with the prompt
    * quoted, and `run claude <args>` with the arguments passed on as written. */
  function ParseRunCommand(text: string): Option<RunSpec> {
    var t := Trim(text);
    if t == "run ship-main" then Some(RunSpec("run ship-main", "IMAC_SOUND=1 scripts/ship-main"))
    else if t == "run ship-subframe" then Some(RunSpec("run ship-subframe", "IMAC_SOUND=1 scripts/ship-subframe"))
    else if StartsWith(t, CodexPrefix) then
      var prompt := Trim(t[|CodexPrefix|..]);
      if prompt == "" then None
      else Some(RunSpec("run codex", "IMAC_SOUND=1 scripts/codex-safe " + ShellQuote(prompt)))
    else if StartsWith(t, ClaudePrefix) then
      var args := Trim(t[|ClaudePrefix|..]);
      if args == "" then None
      else Some(RunSpec("run claude", "IMAC_SOUND=1 scripts/claude-safe " + args))
    else None
  }

  /** A command is accepted exactly when it is one of the ship commands, or `run codex` or
    * `run claude` followed by something other than white space. */
  lemma ParseRunCommandAccepts(text: string)
    ensures var t := Trim(text);
      ParseRunCommand(text).Some? <==>
        || t == "run ship-main" || t == "run ship-subframe"
        || (StartsWith(t, CodexPrefix) && Trim(t[|CodexPrefix|..]) != "")
        || (StartsWith(t, ClaudePrefix) && Trim(t[|ClaudePrefix|..]) != "")
  {
    CommandsAreDistinct(Trim(text));
  }

  /** The four command forms exclude one another. */
  lemma CommandsAreDistinct(t: string)
    ensures StartsWith(t, CodexPrefix) ==> t != "run ship-main" && t != "run ship-subframe"
    ensures StartsWith(t, ClaudePrefix) ==> !StartsWith(t, CodexPrefix) && t != "run ship-main" && t != "run ship-subframe"
  {
    if StartsWith(t, CodexPrefix) {
      assert t[4] == CodexPrefix[4] == 'c' && t[5] == CodexPrefix[5] == 'o';
    }
    if StartsWith(t, ClaudePrefix) {
      assert t[4] == ClaudePrefix[4] == 'c' && t[5] == ClaudePrefix[5] == 'l';
    }
  }

  /** The codex prompt reaches the shell as one quoted word that reads back as the prompt. */
  lemma CodexPromptIsOneWord(text: string)
    requires ParseRunCommand(text).Some? && ParseRunCommand(text).value.runLabel == "run codex"
    ensures var t := Trim(text);
      && StartsWith(t, CodexPrefix)
      && var prompt := Trim(t[|CodexPrefix|..]);
         ParseRunCommand(text).value.shell == "IMAC_SOUND=1 scripts/codex-safe " + ShellQuote(prompt)
         && ShellWord(ShellQuote(prompt), false) == Some(prompt)
  {
    var t := Trim(text);
    ParseRunCommandAccepts(text);
    assert StartsWith(t, CodexPrefix);
    ShellQuoteRoundTrip(Trim(t[|CodexPrefix|..]));
  }

  // ---------------------------------------------------------------------------
  // isAllowedUser
  // ---------------------------------------------------------------------------

  /** The non-empty entries, in order. */
  function NonEmpty(ts: seq<string>): (r: seq<string>)
    ensures forall x :: x in r <==> x in ts && x != ""
  {
    if ts == [] then []
    else if ts[0] == "" then NonEmpty(ts[1..])
    else [ts[0]] + NonEmpty(ts[1..])
  }

  function TrimAll(parts: seq<string>): (r: seq<string>)
    ensures |r| == |parts| && forall k | 0 <= k < |parts| :: r[k] == Trim(parts[k])
  {
    seq(|parts|, k requires 0 <= k < |parts| => Trim(parts[k]))
  }

  /** `SLACK_ALLOWED_USER_IDS.split(",").map(trim).filter(Boolean)`. */
  function AllowedUserIds(raw: string): seq<string> {
    NonEmpty(TrimAll(Split(raw, ',')))
  }

  /** `isAllowedUser(userId)`: never an empty id; anyone when the allowlist is empty;
    * otherwise the listed ids. */
  function IsAllowedUser(userId: string, allowed: seq<string>): (r: bool)
    ensures userId == "" ==> !r
    ensures userId != "" && |allowed| == 0 ==> r
    ensures userId != "" && |allowed| > 0 ==> (r <==> userId in allowed)
  {
    if userId == "" then false
    else if |allowed| == 0 then true
    else userId in allowed
  }

  /** Some comma-separated entry of `raw` is `userId` up to surrounding white space. */
  predicate Listed(userId: string, raw: string) {
    exists k | 0 <= k < |Split(raw, ',')| :: Trim(Split(raw, ',')[k]) == userId
  }

  /** With the allowlist read from the environment, a user is let in exactly when the id is
    * not empty and is one of the comma-separated entries (up to surrounding white space), or
    * when no entry is set. */
  lemma AllowlistFromEnvironment(userId: string, raw: string)
    ensures var allowed := AllowedUserIds(raw);
      IsAllowedUser(userId, allowed) <==> userId != "" && (|allowed| == 0 || Listed(userId, raw))
  {
    var ts := TrimAll(Split(raw, ','));
    TrimAllMembers(userId, raw);
    AllowedAmong(userId, ts, Listed(userId, raw));
  }

  /** An id is among the trimmed entries exactly when some entry trims to it. */
  lemma TrimAllMembers(userId: string, raw: string)
    ensures userId in TrimAll(Split(raw, ',')) <==> Listed(userId, raw)
  {
    var parts := Split(raw, ',');
    var ts := TrimAll(parts);
    if userId in ts {
      var k :| 0 <= k < |ts| && ts[k] == userId;
      assert Trim(parts[k]) == userId;
    }
    if Listed(userId, raw) {
      var k :| 0 <= k < |parts| && Trim(parts[k]) == userId;
      assert ts[k] == userId;
    }
  }

  lemma AllowedAmong(userId: string, ts: seq<string>, found: bool)
    requires userId in ts <==> found
    ensures IsAllowedUser(userId, NonEmpty(ts)) <==> userId != "" && (|NonEmpty(ts)| == 0 || found)
  {
  }

  // ---------------------------------------------------------------------------
  // Pending approvals
  // ---------------------------------------------------------------------------

  /** A run waiting for its requester's approval. */
  datatype Request = Request(
    requestId: string,
    userId: string,
    channel: string,
    shell: string,
    runLabel: string,
    createdAt: int,
    promptTs: Option<string>)

  /** `requestExpired(req)`: more than thirty minutes have passed. */
  predicate RequestExpired(now: int, req: Request) {
    now - req.createdAt > ApprovalTtlMs
  }

  /** The requests still open at `now`. */
  function Unexpired(m: map<string, Request>, now: int): (r: map<string, Request>)
    ensures forall id :: id in r <==> id in m && !RequestExpired(now, m[id])
    ensures forall id | id in r :: r[id] == m[id]
  {
    map id | id in m && !RequestExpired(now, m[id]) :: m[id]
  }

  /** A request that has expired stays expired. */
  lemma ExpiryIsPermanent(req: Request, now: int, later: int)
    requires RequestExpired(now, req) && now <= later
    ensures RequestExpired(later, req)
  {
  }

  /** Cleaning up at one time and again later is cleaning up once, later. */
  lemma UnexpiredLater(m: map<string, Request>, now: int, later: int)
    requires now <= later
    ensures Unexpired(Unexpired(m, now), later) == Unexpired(m, later)
  {
    var a, b := Unexpired(Unexpired(m, now), later), Unexpired(m, later);
    forall id | id in b ensures id in a {
      if RequestExpired(now, m[id]) {
        ExpiryIsPermanent(m[id], now, later);
      }
    }
  }

  /** The daemon's `pendingApprovals` map. */
  class Approvals {
    var pending: map<string, Request>

    constructor()
      ensures pending == map[]
    {
      pending := map[];
    }

    /** `cleanupExpiredApprovals()`: every expired request is deleted, and nothing else. */
    method CleanupExpired(now: int)
      modifies this
      ensures pending == Unexpired(old(pending), now)
    {
      var toVisit := pending.Keys;
      ghost var start := pending;
      while toVisit != {}
        invariant toVisit <= start.Keys
        invariant forall id :: id in pending <==> id in start && (id in toVisit || !RequestExpired(now, start[id]))
        invariant forall id | id in pending :: pending[id] == start[id]
        decreases toVisit
      {
        var id :| id in toVisit;
        if RequestExpired(now, pending[id]) {
          pending := pending - {id};
        }
        toVisit := toVisit - {id};
      }
    }
  }
}
