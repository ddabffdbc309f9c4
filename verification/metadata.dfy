/** How Go and SQLite each read the metadata column, and the dispatch modes stored in it. */
module Metadata {
  import opened Types

  const INTERACTIVE := "interactive"
  const NONINTERACTIVE := "noninteractive"
  const REMOTE := "remote"
  const LEGACY_BG := "experimental_bg"

  /** ParseActionMetadata: the empty string reads as an empty object, anything else must be an object. */
  function GoParse(meta: Meta): Option<Object> {
    match meta
    case Obj(m) => Some(m)
    case Blank => Some(map[])
    case NonObject => None
    case Malformed => None
  }

  /** json_extract raises an error on text that is not JSON, the empty string included. */
  predicate SqlReadable(meta: Meta) {
    meta.Obj? || meta.NonObject?
  }

  /** json_extract(metadata, '$.key'); None is SQL NULL. */
  function SqlExtract(meta: Meta, key: string): Option<Json> {
    if meta.Obj? && key in meta.m && meta.m[key] != JNull then Some(meta.m[key]) else None
  }

  /** mergeMetadataJSON: shallow merge; None when the stored text does not parse to an object. */
  function Merge(meta: Meta, updates: Object): Option<Meta> {
    match GoParse(meta)
    case Some(m) => Some(Obj(m + updates))
    case None => None
  }

  /** Go's `m[key].(string)` with the failed assertion read as "". */
  function StringAt(m: Object, key: string): string {
    if key in m && m[key].JStr? then m[key].s else ""
  }

  predicate IsSpace(c: char) {
    c == ' ' || '\t' <= c <= '\r'
  }

  predicate IsBlankText(s: string) {
    forall c | c in s :: IsSpace(c)
  }

  predicate IsValidMode(s: string) {
    s == INTERACTIVE || s == NONINTERACTIVE || s == REMOTE
  }

  /** ValidateActionMode: absent and "" are accepted, otherwise one of the three modes. */
  predicate ValidMode(m: Object) {
    "mode" in m ==> m["mode"].JStr? && (m["mode"].s == "" || IsValidMode(m["mode"].s))
  }

  /** ValidateActionMetadata. */
  predicate ValidMetadata(m: Object) {
    !IsBlankText(StringAt(m, "instruction")) && ValidMode(m)
  }

  /** The string items of metadata.claude_args; other items are dropped. */
  function Strings(items: seq<Json>): seq<string> {
    if items == [] then []
    else (if items[0].JStr? then [items[0].s] else []) + Strings(items[1..])
  }

  function ClaudeArgs(m: Object): seq<string> {
    if "claude_args" in m && m["claude_args"].JList? then Strings(m["claude_args"].items) else []
  }

  predicate ValidArg(args: seq<string>, i: int)
    requires 0 <= i < |args|
  {
    && args[i] !in {"-p", "--print", "--output-format", "--remote"}
    && (args[i] == "--permission-mode" && i + 1 < |args| ==>
          !IsValidMode(args[i + 1]) && args[i + 1] != LEGACY_BG)
  }

  predicate ValidClaudeArgs(args: seq<string>) {
    forall i | 0 <= i < |args| :: ValidArg(args, i)
  }

  /** An action the executor can run: its metadata parses and passes both validations. */
  predicate Runnable(meta: Meta) {
    GoParse(meta).Some? && ValidMetadata(GoParse(meta).value) && ValidClaudeArgs(ClaudeArgs(GoParse(meta).value))
  }

  // ----- runnable metadata, key by key -----

  /** The string that follows items[i], items of other types being skipped, stands at j. */
  predicate Follows(items: seq<Json>, i: int, j: int) {
    0 <= i < j < |items| && items[j].JStr? && forall k | i < k < j :: !items[k].JStr?
  }

  predicate ManagedArg(j: Json) {
    j in {JStr("-p"), JStr("--print"), JStr("--output-format"), JStr("--remote")}
  }

  predicate NamesMode(j: Json) {
    j in {JStr("interactive"), JStr("noninteractive"), JStr("remote"), JStr("experimental_bg")}
  }

  /** An argument tq manages itself, or a permission mode that is one of tq's own modes. */
  predicate RefusedArgs(items: seq<Json>) {
    || (exists j | j in items :: ManagedArg(j))
    || (exists i, j | 0 <= i < |items| && 0 <= j < |items| ::
          Follows(items, i, j) && items[i] == JStr("--permission-mode") && NamesMode(items[j]))
  }

  lemma {:induction false} FirstString(items: seq<Json>) returns (j: nat)
    ensures j <= |items| && forall k | 0 <= k < j :: !items[k].JStr?
    ensures j < |items| ==> Strings(items) != [] && items[j] == JStr(Strings(items)[0])
    ensures j == |items| ==> Strings(items) == []
  {
    if items == [] || items[0].JStr? {
      j := 0;
    } else {
      var rest := FirstString(items[1..]);
      j := rest + 1;
    }
  }

  lemma FollowsTail(items: seq<Json>, i: int, j: int)
    requires items != [] && i >= 0
    ensures Follows(items, i + 1, j + 1) <==> Follows(items[1..], i, j)
  {
    if Follows(items[1..], i, j) {
      forall k | i + 1 < k < j + 1 ensures !items[k].JStr? {
        assert !items[1..][k - 1].JStr?;
      }
    }
  }

  /** RefusedArgs because of its first item, or because of the rest. */
  lemma RefusedHead(items: seq<Json>)
    requires items != []
    ensures RefusedArgs(items) <==>
              || ManagedArg(items[0]) || RefusedArgs(items[1..])
              || (items[0] == JStr("--permission-mode") && Strings(items[1..]) != []
                  && NamesMode(JStr(Strings(items[1..])[0])))
  {
    hide ManagedArg, NamesMode;
    var head, rest := items[0], items[1..];
    var j := FirstString(rest);
    assert forall x :: x in items <==> x == head || x in rest;
    if j < |rest| {
      assert Follows(items, 0, j + 1);
    }
    forall k | Follows(items, 0, k) ensures k == j + 1 && j < |rest| && items[k] == rest[j] {
      assert items[k] == rest[k - 1];
    }
    forall a, b | 0 <= a < |rest| && 0 <= b < |rest|
      ensures Follows(items, a + 1, b + 1) <==> Follows(rest, a, b)
    {
      FollowsTail(items, a, b);
    }
    if a, b :| 0 <= a < |items| && 0 <= b < |items| && Follows(items, a, b) && a > 0
               && items[a] == JStr("--permission-mode") && NamesMode(items[b]) {
      assert Follows(rest, a - 1, b - 1) by {
        FollowsTail(items, a - 1, b - 1);
      }
      assert rest[a - 1] == items[a] && rest[b - 1] == items[b];
    }
  }

  lemma ValidArgsHead(arg: string, rest: seq<string>)
    ensures ValidClaudeArgs([arg] + rest) <==>
              && !ManagedArg(JStr(arg)) && ValidClaudeArgs(rest)
              && !(arg == "--permission-mode" && rest != [] && NamesMode(JStr(rest[0])))
  {
    var args := [arg] + rest;
    assert forall i | 0 <= i < |rest| :: args[i + 1] == rest[i];
    assert forall i | 0 < i < |args| :: args[i] == rest[i - 1];
    if ValidClaudeArgs(args) {
      forall i | 0 <= i < |rest| ensures ValidArg(rest, i) {
        assert ValidArg(args, i + 1);
      }
      assert ValidArg(args, 0);
    } else {
      var i :| 0 <= i < |args| && !ValidArg(args, i);
      assert i > 0 ==> !ValidArg(rest, i - 1);
    }
  }

  lemma {:induction false} RefusedIff(items: seq<Json>)
    ensures ValidClaudeArgs(Strings(items)) <==> !RefusedArgs(items)
  {
    hide ManagedArg, NamesMode, ValidClaudeArgs;
    if items == [] {
      NoArgs();
    } else {
      RefusedHead(items);
      RefusedIff(items[1..]);
      if items[0].JStr? {
        ValidArgsHead(items[0].s, Strings(items[1..]));
      } else {
        ManagedText(items[0]);
        assert Strings(items) == Strings(items[1..]);
      }
    }
  }

  lemma NoArgs()
    ensures ValidClaudeArgs([]) && !RefusedArgs([])
  {
  }

  lemma ManagedText(j: Json)
    ensures ManagedArg(j) ==> j.JStr?
  {
  }

  /**
    An action can run exactly when its metadata is an object with an instruction that is not blank, a mode
    that is absent, empty or one of the three, and no refused argument.
   */
  lemma RunnableIff(meta: Meta)
    ensures Runnable(meta) <==>
              && meta.Obj? && "instruction" in meta.m && meta.m["instruction"].JStr?
              && (exists c | c in meta.m["instruction"].s :: !(c == ' ' || '\t' <= c <= '\r'))
              && ("mode" in meta.m ==>
                    meta.m["mode"] in {JStr(""), JStr("interactive"), JStr("noninteractive"), JStr("remote")})
              && ("claude_args" in meta.m && meta.m["claude_args"].JList? ==> !RefusedArgs(meta.m["claude_args"].items))
  {
    hide RefusedArgs, ValidClaudeArgs;
    NoArgs();
    if meta.Obj? && "claude_args" in meta.m && meta.m["claude_args"].JList? {
      RefusedIff(meta.m["claude_args"].items);
    }
  }

  /** Only an object or empty text can be merged into: a key of the updates wins, every other key stays. */
  lemma MergeOverlays(meta: Meta, updates: Object)
    ensures Merge(meta, updates).Some? <==> meta.Obj? || meta.Blank?
    ensures Merge(meta, updates).Some? ==>
              && Merge(meta, updates).value.Obj?
              && var m := Merge(meta, updates).value.m;
              && (forall k | k in updates :: k in m && m[k] == updates[k])
              && (forall k | k !in updates ::
                    (k in m <==> meta.Obj? && k in meta.m) && (k in m ==> m[k] == meta.m[k]))
  {
  }

  /** The mode a runnable action is executed in. */
  function ModeOf(m: Object): string {
    if StringAt(m, "mode") != "" then StringAt(m, "mode") else INTERACTIVE
  }

  datatype Pool = InteractivePool | NonInteractivePool

  /** The SQL predicates that decide which slot pool a running row counts against. */
  predicate InPool(meta: Meta, pool: Pool) {
    var mode := SqlExtract(meta, "mode");
    && SqlReadable(meta)
    && match pool
       case InteractivePool => mode == None || mode == Some(JStr(INTERACTIVE)) || mode == Some(JStr(LEGACY_BG))
       case NonInteractivePool => mode == Some(JStr(NONINTERACTIVE))
  }

  predicate IsCloud(meta: Meta) {
    SqlExtract(meta, "executor") == Some(JStr("cloud"))
  }

  // ----- schedule ids inside metadata -----

  function Digit(d: nat): char
    requires d < 10
  {
    '0' + d as char
  }

  /** fmt.Sprintf("%d", n) for the non-negative ids of the database. */
  function Decimal(n: nat): (s: string)
    ensures s != []
  {
    if n < 10 then [Digit(n)] else Decimal(n / 10) + [Digit(n % 10)]
  }

  predicate AllDigits(s: string) {
    forall i | 0 <= i < |s| :: '0' <= s[i] <= '9'
  }

  function DigitsValue(s: string): int
    requires AllDigits(s)
  {
    if s == [] then 0
    else DigitsValue(s[..|s| - 1]) * 10 + (s[|s| - 1] as int - '0' as int)
  }

  /** CAST(text AS INTEGER) reads the leading digits and ignores the rest. */
  function LeadingDigits(s: string): (r: string)
    ensures AllDigits(r)
  {
    if s == [] || !('0' <= s[0] <= '9') then [] else [s[0]] + LeadingDigits(s[1..])
  }

  /** CAST(json_extract(metadata, '$.schedule_id') AS INTEGER); None is SQL NULL. */
  function ScheduleRef(meta: Meta): Option<int> {
    match SqlExtract(meta, "schedule_id")
    case None => None
    case Some(v) =>
      match v
      case JNum(n) => Some(n)
      case JBool(b) => Some(if b then 1 else 0)
      case JStr(s) =>
        Some(if s != [] && s[0] == '-' then -DigitsValue(LeadingDigits(s[1..])) else DigitsValue(LeadingDigits(s)))
      case _ => Some(0)
  }

  lemma {:induction false} LeadingDigitsWhole(s: string)
    requires AllDigits(s)
    ensures LeadingDigits(s) == s
  {
    if s != [] {
      LeadingDigitsWhole(s[1..]);
      assert s == [s[0]] + s[1..];
    }
  }

  lemma {:induction false} DecimalValue(n: nat)
    ensures AllDigits(Decimal(n)) && DigitsValue(Decimal(n)) == n
  {
    if n >= 10 {
      DecimalValue(n / 10);
      var d := Decimal(n / 10);
      assert Decimal(n) == d + [Digit(n % 10)];
      assert (d + [Digit(n % 10)])[..|d|] == d;
    } else {
      var d := Decimal(n);
      assert d[..0] == [];
      assert DigitsValue(d) == DigitsValue(d[..0]) * 10 + n;
    }
  }

  predicate NoDigitFirst(s: string) {
    s == [] || !('0' <= s[0] <= '9')
  }

  lemma {:induction false} LeadingDigitsStop(s: string, rest: string)
    requires AllDigits(s) && NoDigitFirst(rest)
    ensures LeadingDigits(s + rest) == s
  {
    if s == [] {
      assert s + rest == rest;
    } else {
      assert (s + rest)[1..] == s[1..] + rest;
      LeadingDigitsStop(s[1..], rest);
      assert s == [s[0]] + s[1..];
    }
  }

  /**
    How a schedule id in metadata is read: a number as itself, text by its leading integer with an optional
    minus sign, a missing or null key as none.
   */
  lemma ScheduleRefReads(m: Object, n: nat, rest: string)
    requires NoDigitFirst(rest)
    ensures ScheduleRef(Obj(m["schedule_id" := JStr(Decimal(n) + rest)])) == Some(n)
    ensures
      var negative: int := 0 - n;
      ScheduleRef(Obj(m["schedule_id" := JStr("-" + Decimal(n) + rest)])) == Some(negative)
    ensures ScheduleRef(Obj(m["schedule_id" := JNum(n)])) == Some(n)
    ensures ScheduleRef(Obj(m["schedule_id" := JNull])) == None
    ensures "schedule_id" !in m ==> ScheduleRef(Obj(m)) == None
  {
    CastReads(n, rest);
    hide DigitsValue, LeadingDigits, Decimal, AllDigits;
    assert ("-" + Decimal(n) + rest)[0] == '-';
    assert ("-" + Decimal(n) + rest)[1..] == Decimal(n) + rest;
  }

  lemma CastReads(n: nat, rest: string)
    requires NoDigitFirst(rest)
    ensures DigitsValue(LeadingDigits(Decimal(n) + rest)) == n && (Decimal(n) + rest)[0] != '-'
  {
    DecimalValue(n);
    var d := Decimal(n);
    LeadingDigitsStop(d, rest);
    assert (d + rest)[0] == d[0] && '0' <= d[0] <= '9';
  }

  /** The text a schedule stamps into its actions casts back to the schedule's id. */
  lemma ScheduleStampRoundTrip(m: Object, id: nat)
    ensures ScheduleRef(Obj(m["schedule_id" := JStr(Decimal(id))])) == Some(id)
  {
    DecimalValue(id);
    LeadingDigitsWhole(Decimal(id));
  }
}
