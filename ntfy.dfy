/**
 * The ntfy push-notification command: reading its command-line flags, choosing the
 * Authorization header, and normalising the priority. The base64 encoding of
 * `user:pass` is the parameter `base64`.
 */
module Ntfy {
  import opened Wrappers
  import opened Text

  // ---------------------------------------------------------------------------
  // parseArgs
  // ---------------------------------------------------------------------------

  datatype Args = Args(title: string, message: string, priority: string, tags: string)

  const NoArgs := Args("", "", "", "")

  const TitleFlag := "--title"
  const MessageFlag := "--message"
  const PriorityFlag := "--priority"
  const TagsFlag := "--tags"

  predicate IsFlag(a: string) {
    a == TitleFlag || a == MessageFlag || a == PriorityFlag || a == TagsFlag
  }

  /** The argument after position `i`, or "" past the end (`argv[i + 1] ?? ''`). */
  function ValueAfter(argv: seq<string>, i: nat): string {
    if i + 1 < |argv| then argv[i + 1] else ""
  }

  /** `out` with the field named by `flag` set to `v`. */
  function SetField(out: Args, flag: string, v: string): Args
    requires IsFlag(flag)
  {
    if flag == TitleFlag then out.(title := v)
    else if flag == MessageFlag then out.(message := v)
    else if flag == PriorityFlag then out.(priority := v)
    else out.(tags := v)
  }

  /** The loop of `parseArgs` from position `i` on, with `out` read so far: a flag takes the
    * next argument and skips it, anything else is passed over. */
  function Scan(argv: seq<string>, i: nat, out: Args): Args
    decreases |argv| - i
  {
    if i >= |argv| then out
    else if IsFlag(argv[i]) then Scan(argv, i + 2, SetField(out, argv[i], ValueAfter(argv, i)))
    else Scan(argv, i + 1, out)
  }

  /** `parseArgs(argv)`. */
  method ParseArgs(argv: seq<string>) returns (out: Args)
    ensures out == Scan(argv, 0, NoArgs)
  {
    out := NoArgs;
    var i := 0;
    while i < |argv|
      invariant i <= |argv| + 1
      invariant Scan(argv, i, out) == Scan(argv, 0, NoArgs)
      decreases |argv| - i
    {
      var a := argv[i];
      if a == TitleFlag {
        out := out.(title := if i + 1 < |argv| then argv[i + 1] else "");
        i := i + 1;
      } else if a == MessageFlag {
        out := out.(message := if i + 1 < |argv| then argv[i + 1] else "");
        i := i + 1;
      } else if a == PriorityFlag {
        out := out.(priority := if i + 1 < |argv| then argv[i + 1] else "");
        i := i + 1;
      } else if a == TagsFlag {
        out := out.(tags := if i + 1 < |argv| then argv[i + 1] else "");
        i := i + 1;
      }
      i := i + 1;
    }
  }

  /** The command line that passes every field by its flag. */
  function Render(a: Args): seq<string> {
    [TitleFlag, a.title, MessageFlag, a.message, PriorityFlag, a.priority, TagsFlag, a.tags]
  }

  /** Reading the flags back gives the fields, whatever their text (a value that looks like
    * a flag is still taken as a value). */
  lemma ParseArgsRoundTrip(a: Args)
    ensures Scan(Render(a), 0, NoArgs) == a
  {
    var argv := Render(a);
    calc {
      Scan(argv, 0, NoArgs);
      Scan(argv, 2, NoArgs.(title := a.title));
      Scan(argv, 4, Args(a.title, a.message, "", ""));
      Scan(argv, 6, Args(a.title, a.message, a.priority, ""));
      Scan(argv, 8, a);
    }
  }

  /** Arguments that are not flags change nothing. */
  lemma {:induction false} ScanSkipsNonFlags(argv: seq<string>, i: nat, out: Args)
    requires forall k | i <= k < |argv| :: !IsFlag(argv[k])
    ensures Scan(argv, i, out) == out
    decreases |argv| - i
  {
    if i < |argv| {
      ScanSkipsNonFlags(argv, i + 1, out);
    }
  }

  /** A flag given last, with no argument after it, sets its field to "". */
  lemma FlagWithoutValue(junk: seq<string>, flag: string)
    requires IsFlag(flag)
    requires forall k | 0 <= k < |junk| :: !IsFlag(junk[k])
    ensures Scan(junk + [flag], 0, NoArgs) == SetField(NoArgs, flag, "")
  {
    var argv := junk + [flag];
    ScanPassesOver(argv, 0, |junk|, NoArgs);
    assert argv[|junk|] == flag;
  }

  lemma {:induction false} ScanPassesOver(argv: seq<string>, i: nat, j: nat, out: Args)
    requires i <= j <= |argv|
    requires forall k | i <= k < j :: !IsFlag(argv[k])
    ensures Scan(argv, i, out) == Scan(argv, j, out)
    decreases j - i
  {
    if i < j {
      ScanPassesOver(argv, i + 1, j, out);
    }
  }

  // ---------------------------------------------------------------------------
  // buildAuthHeader
  // ---------------------------------------------------------------------------

  /** The environment variables the header depends on; None when unset. */
  datatype AuthEnv = AuthEnv(token: Option<string>, user: Option<string>, pass: Option<string>)

  predicate Truthy(v: Option<string>) {
    v.Some? && v.value != ""
  }

  /** `buildAuthHeader(env)`. */
  function BuildAuthHeader(env: AuthEnv, base64: string -> string): string {
    if Truthy(env.token) then "Bearer " + env.token.value
    else if Truthy(env.user) && Truthy(env.pass) then "Basic " + base64(env.user.value + ":" + env.pass.value)
    else ""
  }

  /** A token wins over a user and password, and is sent as is after "Bearer "; without a
    * token, a user with a password is sent as Basic credentials; with neither the header is
    * empty, and only then. */
  lemma AuthHeaderChoice(env: AuthEnv, base64: string -> string)
    ensures var h := BuildAuthHeader(env, base64);
      && (Truthy(env.token) ==> StartsWith(h, "Bearer ") && h[7..] == env.token.value)
      && (!Truthy(env.token) && Truthy(env.user) && Truthy(env.pass) ==>
            StartsWith(h, "Basic ") && h[6..] == base64(env.user.value + ":" + env.pass.value))
      && (h == "" <==> !Truthy(env.token) && !(Truthy(env.user) && Truthy(env.pass)))
  {
    var h := BuildAuthHeader(env, base64);
    if Truthy(env.token) {
      assert h == "Bearer " + env.token.value;
      assert h[..7] == "Bearer ";
    } else if Truthy(env.user) && Truthy(env.pass) {
      assert h[..6] == "Basic ";
    }
  }

  // ---------------------------------------------------------------------------
  // normalizePriority
  // ---------------------------------------------------------------------------

  /** The five levels ntfy accepts. */
  const Levels: set<string> := {"1", "2", "3", "4", "5"}

  /** The level names and their numbers. */
  const Names: map<string, string> := map["min" := "1", "low" := "2", "default" := "3", "high" := "4", "max" := "5"]

  /** The keys a plain object literal inherits whose value is truthy and that are written in
    * lower case: the prototype's constructor and the prototype itself. */
  const Inherited: set<string> := {"constructor", "__proto__"}

  /** `/^[1-5]$/`: exactly one digit from 1 to 5. */
  predicate IsLevelDigit(raw: string) {
    raw in Levels
  }

  /** `String(value || '').trim().toLowerCase()`. */
  function RawPriority(value: string): string {
    ToLower(Trim(value))
  }

  /** What `map[raw] || '3'` evaluates to: a level, or an object the literal inherits. */
  datatype PriorityHeader = Level(level: string) | ObjectMember(key: string)

  /** `normalizePriority(value)` as written: the name table is a plain object, so a key it
    * inherits is found too. */
  function NormalizePriorityAsWritten(value: string): PriorityHeader {
    var raw := RawPriority(value);
    if raw == "" then Level("3")
    else if IsLevelDigit(raw) then Level(raw)
    else if raw in Names then Level(Names[raw])
    else if raw in Inherited then ObjectMember(raw)
    else Level("3")
  }

  /** A priority spelled "Constructor" selects the object's constructor function, which is
    * not one of the five levels. */
  lemma ConstructorIsNotALevel()
    ensures NormalizePriorityAsWritten("Constructor") == ObjectMember("constructor")
  {
    var s := "Constructor";
    TrimNoop(s);
    var raw := ToLower(s);
    assert raw == "constructor";
    assert raw !in Levels by {
      assert |raw| != 1;
    }
    assert raw !in Names by {
      assert |raw| == 11;
    }
  }

  /** `normalizePriority(value)` with the name table consulted for its own keys only. */
  function NormalizePriority(value: string): (r: string)
    ensures r in Levels
  {
    LevelOf(RawPriority(value))
  }

  /** The level chosen for the trimmed, lower-cased text. */
  function LevelOf(raw: string): (r: string)
    ensures r in Levels
  {
    if raw == "" then "3"
    else if IsLevelDigit(raw) then raw
    else if raw in Names then Names[raw]
    else "3"
  }

  /** The two agree on every input that does not name an inherited key. */
  lemma AsWrittenAgreesElsewhere(value: string)
    requires RawPriority(value) !in Inherited
    ensures NormalizePriorityAsWritten(value) == Level(NormalizePriority(value))
  {
  }

  /** Empty input is the default level 3; a digit 1 to 5 is kept; min, low, default, high and
    * max (in any case, with surrounding white space) are 1 to 5; anything else is 3. */
  lemma NormalizePriorityCases(value: string)
    ensures var raw, r := RawPriority(value), NormalizePriority(value);
      && (raw == "" ==> r == "3")
      && (IsLevelDigit(raw) ==> r == raw)
      && (raw == "min" ==> r == "1") && (raw == "low" ==> r == "2") && (raw == "default" ==> r == "3")
      && (raw == "high" ==> r == "4") && (raw == "max" ==> r == "5")
      && (!IsLevelDigit(raw) && raw !in Names ==> r == "3")
  {
    var raw := RawPriority(value);
    assert NormalizePriority(value) == LevelOf(raw);
    LevelOfCases(raw);
  }

  lemma LevelOfCases(raw: string)
    ensures var r := LevelOf(raw);
      && (raw == "" ==> r == "3")
      && (IsLevelDigit(raw) ==> r == raw)
      && (raw == "min" ==> r == "1") && (raw == "low" ==> r == "2") && (raw == "default" ==> r == "3")
      && (raw == "high" ==> r == "4") && (raw == "max" ==> r == "5")
      && (!IsLevelDigit(raw) && raw !in Names ==> r == "3")
  {
    if |raw| != 1 {
      assert !IsLevelDigit(raw);
    }
  }

  /** A normalised priority normalises to itself. */
  lemma NormalizePriorityIdempotent(value: string)
    ensures NormalizePriority(NormalizePriority(value)) == NormalizePriority(value)
  {
    var r := NormalizePriority(value);
    LevelIsRaw(r);
    LevelOfLevel(r);
    assert NormalizePriority(r) == LevelOf(RawPriority(r));
  }

  lemma LevelOfLevel(r: string)
    requires r in Levels
    ensures LevelOf(r) == r
  {
    assert |r| == 1;
  }

  lemma LevelIsRaw(r: string)
    requires r in Levels
    ensures RawPriority(r) == r
  {
    assert |r| == 1 && '1' <= r[0] <= '5';
    TrimNoop(r);
    ToLowerKeepsLower(r);
  }
}
