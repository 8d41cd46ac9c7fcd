/** The configuration file: config_set_value and config_load of src/sip_media/config.c, and
    read_cfg_value of src/firmware_update.c, which reads the same file on its own.

    The daemon takes the last assignment of a key and the updater the first, they disagree on what
    an assignment looks like, and config_set_value has a third opinion.  When does a value that was
    set come back from both? */
module ConfigFile {
  import opened Characters
  import opened Wrappers

  // ---------------------------------------------------------------------- lines

  function TrimLeft(s: string): string {
    if s != "" && Space(s[0]) then TrimLeft(s[1..]) else s
  }

  function TrimRight(s: string): string {
    if s != "" && Space(s[|s| - 1]) then TrimRight(s[..|s| - 1]) else s
  }

  function Trim(s: string): string {
    TrimRight(TrimLeft(s))
  }

  /** The part of s before the first character for which strchr or strcspn stops. */
  function Until(s: string, stop: set<char>): (r: string)
    ensures |r| <= |s|
  {
    if s == "" || s[0] in stop then "" else [s[0]] + Until(s[1..], stop)
  }

  function Cut(s: string, n: nat): string {
    if |s| > n then s[..n] else s
  }

  function Unquote(s: string): string {
    if s != "" && (s[0] == '"' || s[0] == '\'') && s[|s| - 1] == s[0]
    then if |s| == 1 then "" else s[1..|s| - 1]
    else s
  }

  /** Both readers: no comment, and split at the first `=`. */
  function Split(line: string): Option<(string, string)> {
    var t := Trim(line);
    var key := Until(t, {'='});
    if t == "" || t[0] == '#' || |key| == |t| then None else Some((key, t[|key| + 1..]))
  }

  /** parse_config_line: blanks around the `=` and quotes around the value do not count. */
  function DaemonTakes(line: string): Option<(string, string)> {
    match Split(Until(line, {'\r', '\n'}))
    case None => None
    case Some((key, value)) => Some((Cut(Trim(key), 255), Unquote(Cut(Trim(value), 255))))
  }

  /** read_cfg_value into a buffer of `size`: a blank before the `=` belongs to the key. */
  function UpdaterTakes(line: string, size: nat): Option<(string, string)>
    requires size > 0
  {
    match Split(line)
    case None => None
    case Some((key, value)) => Some((key, Trim(Cut(value, size - 1))))
  }

  function SkipBlanks(s: string): string {
    if s != "" && (s[0] == ' ' || s[0] == '\t') then SkipBlanks(s[1..]) else s
  }

  /** The lines config_set_value replaces. */
  predicate Replaces(line: string, key: string) {
    key + "=" <= SkipBlanks(line)
  }

  /** Keys as the program uses them. */
  predicate CleanKey(key: string) {
    && 0 < |key| < 255 && key[0] != '#'
    && forall i | 0 <= i < |key| :: !Space(key[i]) && key[i] != '='
  }

  /** Values that survive trimming, unquoting and the buffers of both readers. */
  predicate CleanValue(value: string, size: nat) {
    && |value| <= 255 && |value| < size
    && (value != "" ==> !Space(value[0]) && !Space(value[|value| - 1]))
    && Unquote(value) == value
    && forall i | 0 <= i < |value| :: value[i] != '\r' && value[i] != '\n'
  }

  // ----------------------------------------------------------------- whole files

  /** Lines without their newlines; text behind the last newline is `unterminated`. */
  datatype File = End(unterminated: string) | Line(text: string, rest: File)

  /** What a reader looking for one key takes from a line. */
  type Taker = string -> Option<string>

  function Assigned(taken: Option<(string, string)>, key: string): Option<string> {
    if taken.Some? && taken.value.0 == key then Some(taken.value.1) else None
  }

  function DaemonFor(key: string): Taker {
    line => Assigned(DaemonTakes(line), key)
  }

  function UpdaterFor(key: string, size: nat): Taker
    requires size > 0
  {
    line => Assigned(UpdaterTakes(line, size), key)
  }

  function Replacer(key: string): string -> bool {
    line => Replaces(line, key)
  }

  function Last(f: File, take: Taker): Option<string> {
    match f
    case End(u) => take(u)
    case Line(text, rest) =>
      var later := Last(rest, take);
      if later.Some? then later else take(text)
  }

  function First(f: File, take: Taker): Option<string> {
    match f
    case End(u) => take(u)
    case Line(text, rest) => if take(text).Some? then take(text) else First(rest, take)
  }

  /** config_load: the last assignment of the key. */
  function Daemon(f: File, key: string): Option<string> {
    Last(f, DaemonFor(key))
  }

  /** read_cfg_value: the first. */
  function Updater(f: File, key: string, size: nat): Option<string>
    requires size > 0
  {
    First(f, UpdaterFor(key, size))
  }

  predicate Matches(f: File, matching: string -> bool) {
    match f
    case End(u) => matching(u)
    case Line(text, rest) => matching(text) || Matches(rest, matching)
  }

  function Replace(f: File, matching: string -> bool, line: string): File {
    match f
    case End(u) => if matching(u) then Line(line, End("")) else f
    case Line(text, rest) => Line(if matching(text) then line else text, Replace(rest, matching, line))
  }

  function Append(f: File, line: string): File {
    match f
    case End(u) => Line(u + line, End(""))
    case Line(text, rest) => Line(text, Append(rest, line))
  }

  predicate Holds(f: File, key: string) {
    Matches(f, Replacer(key))
  }

  /** config_set_value. */
  function Set(f: File, key: string, value: string): File {
    if Holds(f, key) then Replace(f, Replacer(key), key + "=" + value) else Append(f, key + "=" + value)
  }

  // ------------------------------------------------------------ lemmas about lines

  lemma {:induction false} TrimLeftBlanks(blanks: string, s: string)
    requires forall i | 0 <= i < |blanks| :: Space(blanks[i])
    requires s != "" && !Space(s[0])
    ensures TrimLeft(blanks + s) == s
    decreases |blanks|
  {
    if blanks == "" {
      assert blanks + s == s;
    } else {
      TrimLeftBlanks(blanks[1..], s);
      assert (blanks + s)[1..] == blanks[1..] + s;
    }
  }

  /** Trimming on the right stops at a character that is no space. */
  lemma {:induction false} TrimRightBehind(s: string, t: string)
    requires s != "" && !Space(s[|s| - 1])
    ensures TrimRight(s + t) == s + TrimRight(t)
    decreases |t|
  {
    if t == "" {
      assert s + t == s;
    } else if Space(t[|t| - 1]) {
      TrimRightBehind(s, t[..|t| - 1]);
      assert (s + t)[..|s + t| - 1] == s + t[..|t| - 1];
    }
  }

  lemma {:induction false} UntilBehind(s: string, t: string, stop: set<char>)
    requires forall i | 0 <= i < |s| :: s[i] !in stop
    ensures Until(s + t, stop) == s + Until(t, stop)
    decreases |s|
  {
    if s == "" {
      assert s + t == t;
    } else {
      UntilBehind(s[1..], t, stop);
      assert (s + t)[1..] == s[1..] + t;
    }
  }

  lemma UntilEquals(key: string, value: string)
    requires CleanKey(key)
    ensures Until(key + "=" + value, {'='}) == key
  {
    UntilBehind(key, "=" + value, {'='});
    assert Until("=" + value, {'='}) == "";
    assert key + ("=" + value) == key + "=" + value;
  }

  lemma TrimAssignment(blanks: string, key: string, value: string)
    requires CleanKey(key) && forall i | 0 <= i < |blanks| :: Space(blanks[i])
    ensures Trim(blanks + key + "=" + value) == key + "=" + TrimRight(value)
  {
    var head := key + "=";
    assert blanks + key + "=" + value == blanks + (head + value);
    TrimLeftBlanks(blanks, head + value);
    TrimRightBehind(head, value);
  }

  /** Whatever stands before it in blanks and behind it, key= is an assignment of key. */
  lemma SplitAssignment(blanks: string, key: string, value: string)
    requires CleanKey(key) && forall i | 0 <= i < |blanks| :: Space(blanks[i])
    ensures Split(blanks + key + "=" + value) == Some((key, TrimRight(value)))
  {
    TrimAssignment(blanks, key, value);
    UntilEquals(key, TrimRight(value));
    var t := key + "=" + TrimRight(value);
    assert t[0] == key[0] && t[|key| + 1..] == TrimRight(value);
  }

  lemma {:induction false} TrimClean(s: string)
    requires s != "" ==> !Space(s[0]) && !Space(s[|s| - 1])
    ensures Trim(s) == s && TrimRight(s) == s
  {
    assert TrimLeft(s) == s && TrimRight(s) == s;
    assert Trim(s) == TrimRight(TrimLeft(s)) == s;
  }

  lemma DaemonTakesAssignment(line: string, blanks: string, key: string, value: string)
    requires line == blanks + key + "=" + value
    requires CleanKey(key) && forall i | 0 <= i < |blanks| :: Space(blanks[i]) && blanks[i] !in {'\r', '\n'}
    ensures DaemonTakes(line) == Some((key, Unquote(Cut(Trim(TrimRight(Until(value, {'\r', '\n'}))), 255))))
  {
    UntilBehind(blanks + key + "=", value, {'\r', '\n'});
    SplitAssignment(blanks, key, Until(value, {'\r', '\n'}));
    TrimClean(key);
  }

  lemma {:induction false} BlanksInFront(s: string) returns (blanks: string)
    ensures s == blanks + SkipBlanks(s)
    ensures forall i | 0 <= i < |blanks| :: blanks[i] == ' ' || blanks[i] == '\t'
    decreases |s|
  {
    if s != "" && (s[0] == ' ' || s[0] == '\t') {
      blanks := BlanksInFront(s[1..]);
      blanks := [s[0]] + blanks;
    } else {
      blanks := "";
    }
  }

  lemma ReplacedShape(line: string, key: string) returns (blanks: string, value: string)
    requires Replaces(line, key)
    ensures line == blanks + key + "=" + value
    ensures forall i | 0 <= i < |blanks| :: Space(blanks[i]) && blanks[i] !in {'\r', '\n'}
  {
    blanks := BlanksInFront(line);
    var kept, head := SkipBlanks(line), key + "=";
    value := kept[|head|..];
    assert kept == head + value;
    assert line == blanks + (head + value);
  }

  /** A line that config_set_value replaces is an assignment of the key to both readers. */
  lemma ReplacedIsTaken(line: string, key: string, size: nat)
    requires CleanKey(key) && Replaces(line, key) && size > 0
    ensures DaemonTakes(line).Some? && DaemonTakes(line).value.0 == key
    ensures UpdaterTakes(line, size).Some? && UpdaterTakes(line, size).value.0 == key
  {
    var blanks, value := ReplacedShape(line, key);
    DaemonTakesAssignment(line, blanks, key, value);
    SplitAssignment(blanks, key, value);
  }

  lemma CleanValueStays(value: string, size: nat)
    requires CleanValue(value, size)
    ensures Until(value, {'\r', '\n'}) == value && Trim(value) == value && TrimRight(value) == value
    ensures Cut(value, 255) == value && Cut(value, size - 1) == value
  {
    UntilBehind(value, "", {'\r', '\n'});
    assert value + "" == value;
    TrimClean(value);
  }

  lemma EmptyLine(key: string, size: nat)
    requires size > 0
    ensures DaemonTakes("") == None && UpdaterTakes("", size) == None && !Replaces("", key)
  {
  }

  /** The line that config_set_value writes is read as key and value by both. */
  lemma WrittenIsTaken(key: string, value: string, size: nat)
    requires CleanKey(key) && CleanValue(value, size)
    ensures DaemonTakes(key + "=" + value) == Some((key, value))
    ensures UpdaterTakes(key + "=" + value, size) == Some((key, value))
  {
    var line := key + "=" + value;
    assert line == "" + key + "=" + value;
    DaemonTakesAssignment(line, "", key, value);
    SplitAssignment("", key, value);
    CleanValueStays(value, size);
  }

  lemma {:induction false} TrimRightBlanks(s: string, blanks: string)
    requires s != "" && !Space(s[|s| - 1]) && forall i | 0 <= i < |blanks| :: Space(blanks[i])
    ensures TrimRight(s + blanks) == s
    decreases |blanks|
  {
    if blanks == "" {
      assert s + blanks == s;
    } else {
      TrimRightBlanks(s, blanks[..|blanks| - 1]);
      assert (s + blanks)[..|s + blanks| - 1] == s + blanks[..|blanks| - 1];
    }
  }

  /** Blanks on a line. */
  predicate Blank(s: string) {
    forall i | 0 <= i < |s| :: Space(s[i]) && s[i] !in {'\r', '\n'}
  }

  lemma {:induction false} TrimBlanks(before: string, core: string, after: string)
    requires Blank(before) && Blank(after) && core != "" && !Space(core[0]) && !Space(core[|core| - 1])
    ensures TrimRight(before + core + after) == before + core && Trim(before + core) == core
  {
    hide TrimLeft, TrimRight;
    TrimRightBlanks(before + core, after);
    TrimLeftBlanks(before, core);
    TrimRightBlanks(core, "");
    assert core + "" == core;
  }

  /** A value in single or double quotes, with blanks anywhere around key and value: the daemon
      reads what is inside the quotes, blanks included, and the updater keeps the quotes. */
  lemma QuotedIsTaken(blanks: string, key: string, before: string, quote: char, value: string, after: string, size: nat)
    requires CleanKey(key) && Blank(blanks) && Blank(before) && Blank(after)
    requires quote == '"' || quote == '\''
    requires |value| <= 253 && forall i | 0 <= i < |value| :: value[i] != '\r' && value[i] != '\n'
    requires size > |before| + |value| + 2
    ensures var line := blanks + key + "=" + (before + ([quote] + value + [quote]) + after);
            && DaemonTakes(line) == Some((key, value))
            && UpdaterTakes(line, size) == Some((key, [quote] + value + [quote]))
  {
    hide Trim, TrimRight, Until;
    var core := [quote] + value + [quote];
    var rest := before + core + after;
    var line := blanks + key + "=" + rest;
    UntilBehind(rest, "", {'\r', '\n'});
    assert rest + "" == rest && Until("", {'\r', '\n'}) == "";
    TrimBlanks(before, core, after);
    DaemonTakesAssignment(line, blanks, key, rest);
    SplitAssignment(blanks, key, rest);
    assert core[1..|core| - 1] == value;
  }

  /** A comment assigns nothing, whatever it holds. */
  lemma CommentsAreSkipped(blanks: string, text: string, size: nat)
    requires Blank(blanks) && size > 0
    ensures DaemonTakes(blanks + ("#" + text)) == None && UpdaterTakes(blanks + ("#" + text), size) == None
  {
    hide Trim, TrimLeft, TrimRight, Until;
    assert blanks + "#" + text == blanks + ("#" + text);
    CommentSplits(blanks, text);
    UntilBehind(blanks + "#", text, {'\r', '\n'});
    var seen := Until(text, {'\r', '\n'});
    assert blanks + "#" + seen == blanks + ("#" + seen);
    CommentSplits(blanks, seen);
  }

  lemma CommentSplits(blanks: string, text: string)
    requires Blank(blanks)
    ensures Split(blanks + ("#" + text)) == None
  {
    TrimLeftBlanks(blanks, "#" + text);
    TrimRightBehind("#", text);
  }

  // ------------------------------------------------------------ lemmas about files

  /** What stands behind the last newline. */
  function Rest(f: File): string {
    match f
    case End(u) => u
    case Line(_, rest) => Rest(rest)
  }

  /** The file up to there. */
  function Lines(f: File): File {
    match f
    case End(_) => End("")
    case Line(text, rest) => Line(text, Lines(rest))
  }

  /** The line that decides what the reader returns is one that config_set_value passes by. */
  predicate LastIsForeign(f: File, take: Taker, matching: string -> bool) {
    match f
    case End(u) => take(u).Some? && !matching(u)
    case Line(text, rest) =>
      if Last(rest, take).Some? then LastIsForeign(rest, take, matching) else take(text).Some? && !matching(text)
  }

  predicate FirstIsForeign(f: File, take: Taker, matching: string -> bool) {
    match f
    case End(u) => take(u).Some? && !matching(u)
    case Line(text, rest) =>
      if take(text).Some? then !matching(text) else FirstIsForeign(rest, take, matching)
  }

  /** What the lemmas on whole files use of a reader: it takes `value` from the line written and
      something from every line replaced, but nothing from an empty one. */
  ghost predicate Fits(take: Taker, matching: string -> bool, line: string, value: string) {
    take("") == None && !matching("") && take(line) == Some(value) && forall l | matching(l) :: take(l).Some?
  }

  lemma {:induction false} LastOfReplaced(f: File, take: Taker, matching: string -> bool, line: string, value: string)
    requires Fits(take, matching, line, value)
    ensures Last(Replace(f, matching, line), take) ==
            if LastIsForeign(f, take, matching) then Last(f, take)
            else if Last(f, take).Some? then Some(value) else None
    ensures Matches(f, matching) ==> Last(f, take).Some?
    decreases f
  {
    match f
    case End(u) =>
    case Line(_, rest) => LastOfReplaced(rest, take, matching, line, value);
  }

  lemma {:induction false} FirstOfReplaced(f: File, take: Taker, matching: string -> bool, line: string, value: string)
    requires Fits(take, matching, line, value)
    ensures First(Replace(f, matching, line), take) ==
            if FirstIsForeign(f, take, matching) then First(f, take)
            else if First(f, take).Some? then Some(value) else None
    ensures Matches(f, matching) ==> First(f, take).Some?
    decreases f
  {
    match f
    case End(u) =>
    case Line(_, rest) => FirstOfReplaced(rest, take, matching, line, value);
  }

  lemma {:induction false} ReadersOfAppended(f: File, take: Taker, line: string)
    requires take("") == None
    ensures Last(Append(f, line), take) ==
            if take(Rest(f) + line).Some? then take(Rest(f) + line) else Last(Lines(f), take)
    ensures First(Append(f, line), take) ==
            if First(Lines(f), take).Some? then First(Lines(f), take) else take(Rest(f) + line)
    decreases f
  {
    match f
    case End(u) =>
    case Line(_, rest) => ReadersOfAppended(rest, take, line);
  }

  /** What both readers make of a file, from its lines and what is behind them. */
  lemma {:induction false} ReadersOfRest(f: File, take: Taker)
    requires take("") == None
    ensures Last(f, take) == if take(Rest(f)).Some? then take(Rest(f)) else Last(Lines(f), take)
    ensures First(f, take) == if First(Lines(f), take).Some? then First(Lines(f), take) else take(Rest(f))
    decreases f
  {
    match f
    case End(u) =>
    case Line(_, rest) => ReadersOfRest(rest, take);
  }

  lemma BothFit(key: string, value: string, size: nat)
    requires CleanKey(key) && CleanValue(value, size)
    ensures Fits(DaemonFor(key), Replacer(key), key + "=" + value, value)
    ensures Fits(UpdaterFor(key, size), Replacer(key), key + "=" + value, value)
  {
    hide DaemonTakes, UpdaterTakes, Replaces;
    EmptyLine(key, size);
    WrittenIsTaken(key, value, size);
    forall l | Replaces(l, key)
      ensures Assigned(DaemonTakes(l), key).Some? && Assigned(UpdaterTakes(l, size), key).Some?
    {
      ReplacedIsTaken(l, key, size);
    }
  }

  // --------------------------------------- a line glued to what is behind the last newline

  predicate AllSpace(s: string) {
    forall i | 0 <= i < |s| :: Space(s[i])
  }

  predicate Without(s: string, stop: set<char>) {
    forall i | 0 <= i < |s| :: s[i] !in stop
  }

  lemma {:induction false} TrimLeftGlued(u: string, w: string)
    requires !AllSpace(u)
    ensures TrimLeft(u) != "" && !Space(TrimLeft(u)[0]) && |TrimLeft(u)| <= |u|
    ensures TrimLeft(u + w) == TrimLeft(u) + w
    decreases |u|
  {
    if Space(u[0]) {
      assert (u + w)[1..] == u[1..] + w;
      assert !AllSpace(u[1..]) by {
        var i :| 0 <= i < |u| && !Space(u[i]);
        assert u[1..][i - 1] == u[i];
      }
      TrimLeftGlued(u[1..], w);
    }
  }

  lemma {:induction false} UntilGlued(a: string, w: string, stop: set<char>)
    ensures Until(a, stop) <= a
    ensures |Until(a, stop)| == |a| <==> Without(a, stop)
    ensures |Until(a, stop)| < |a| ==> a[|Until(a, stop)|] in stop && Until(a + w, stop) == Until(a, stop)
    ensures |Until(a, stop)| == |a| ==> Until(a + w, stop) == a + Until(w, stop)
    decreases |a|
  {
    if a == "" {
      assert a + w == w;
    } else if a[0] in stop {
      assert (a + w)[0] == a[0];
    } else {
      assert (a + w)[1..] == a[1..] + w && (a + w)[0] == a[0];
      UntilGlued(a[1..], w, stop);
      assert Until(a, stop) == [a[0]] + Until(a[1..], stop);
      assert Without(a, stop) <==> Without(a[1..], stop) by {
        assert forall i | 0 <= i < |a| - 1 :: a[1..][i] == a[i + 1];
        assert forall i | 1 <= i < |a| :: a[i] == a[1..][i - 1];
      }
    }
  }

  lemma TrimGlued(u: string, key: string, value: string)
    requires !AllSpace(u) && CleanKey(key)
    ensures var a := TrimLeft(u);
            a != "" && !Space(a[0]) && Trim(u + key + "=" + value) == a + (key + "=" + TrimRight(value))
  {
    hide TrimLeft, TrimRight;
    var a, w := TrimLeft(u), key + "=" + value;
    TrimLeftGlued(u, w);
    assert u + key + "=" + value == u + w;
    var head := a + key + "=";
    assert a + w == head + value;
    TrimRightBehind(head, value);
    assert head + TrimRight(value) == a + (key + "=" + TrimRight(value));
  }

  lemma UntilGluedKey(a: string, key: string, tail: string)
    requires CleanKey(key)
    ensures var k := Until(a, {'='});
            && |k| <= |a|
            && Until(a + (key + "=" + tail), {'='}) == if |k| < |a| then k else a + key
  {
    UntilGlued(a, key + "=" + tail, {'='});
    UntilEquals(key, tail);
  }

  /** What both readers split a glued line into; `a` is what is visible of the rest in front. */
  lemma SplitGlued(u: string, key: string, value: string)
    requires !AllSpace(u) && CleanKey(key)
    ensures var a, s := TrimLeft(u), Split(u + key + "=" + value);
            var k := Until(a, {'='});
            && a != "" && !Space(a[0]) && |k| <= |a|
            && s == if a[0] == '#' then None
                    else if |k| < |a| then Some((k, a[|k| + 1..] + key + "=" + TrimRight(value)))
                    else Some((a + key, TrimRight(value)))
  {
    hide Trim, TrimRight, TrimLeft, Until;
    var a, tail := TrimLeft(u), TrimRight(value);
    var rest := key + "=" + tail;
    TrimGlued(u, key, value);
    UntilGluedKey(a, key, tail);
    var t, k := a + rest, Until(a, {'='});
    assert t[0] == a[0];
    if |k| < |a| {
      assert t[|k| + 1..] == a[|k| + 1..] + rest;
      assert a[|k| + 1..] + rest == a[|k| + 1..] + key + "=" + tail;
    } else {
      assert t[|a + key| + 1..] == tail;
    }
  }

  lemma {:induction false} TrimLeftKeeps(r: string, w: string)
    requires w != "" && !Space(w[0])
    ensures |TrimLeft(r + w)| >= |w| && |TrimLeft(r + w)| <= |r + w|
    ensures TrimLeft(r + w)[|TrimLeft(r + w)| - 1] == w[|w| - 1]
    decreases |r|
  {
    if r == "" {
      assert r + w == w;
    } else {
      assert (r + w)[1..] == r[1..] + w;
      TrimLeftKeeps(r[1..], w);
    }
  }

  /** Trimming takes nothing of a piece at the end without blanks around it. */
  lemma TrimKeeps(r: string, w: string)
    requires w != "" && !Space(w[0]) && !Space(w[|w| - 1])
    ensures |Trim(r + w)| >= |w| && Trim(r + w)[|Trim(r + w)| - 1] == w[|w| - 1]
  {
    TrimLeftKeeps(r, w);
    var s := TrimLeft(r + w);
    assert TrimRight(s) == s;
  }

  predicate Figure(v: string) {
    v == "0" || v == "1"
  }

  /** A key that is longer than it should be is another key, even when it is cut. */
  lemma LongerKey(a: string, key: string)
    requires a != "" && !Space(a[0]) && CleanKey(key)
    ensures a + key != key && Cut(Trim(a + key), 255) != key
  {
    TrimClean(a + key);
    assert |a + key| > |key|;
  }

  /** A value with more in front of the last figure is not that figure. */
  lemma LongerValue(r: string, key: string, v: string)
    requires CleanKey(key) && Figure(v)
    ensures |Unquote(Cut(Trim(r + key + "=" + v), 255))| > 1
  {
    var w := key + "=" + v;
    assert r + key + "=" + v == r + w;
    TrimKeeps(r, w);
  }

  /** Behind something visible in its line, the daemon does not take key=v for what it is. */
  lemma DaemonMissesGlued(u: string, key: string, v: string)
    requires !AllSpace(u) && Without(u, {'\r', '\n'}) && CleanKey(key) && Figure(v)
    ensures Assigned(DaemonTakes(u + key + "=" + v), key) != Some(v)
  {
    hide Split, Trim, TrimLeft, Until, Unquote, Cut;
    var line, a := u + key + "=" + v, TrimLeft(u);
    UntilOfClean(u, key, v);
    SplitGlued(u, key, v);
    FigureStays(v);
    var k := Until(a, {'='});
    if a[0] != '#' && |k| < |a| {
      LongerValue(a[|k| + 1..], key, v);
    } else if a[0] != '#' {
      LongerKey(a, key);
    }
  }

  lemma FigureStays(v: string)
    requires Figure(v)
    ensures TrimRight(v) == v
  {
  }

  lemma CutValue(r: string, key: string, size: nat)
    requires CleanKey(key) && size > 0
    ensures || (forall v | Figure(v) :: |Trim(Cut(r + key + "=" + v, size - 1))| > 1)
            || Cut(r + key + "=" + "0", size - 1) == Cut(r + key + "=" + "1", size - 1)
  {
    hide Trim;
    var n := |r + key + "="|;
    if size - 1 <= n {
      assert (r + key + "=" + "0")[..size - 1] == (r + key + "=" + "1")[..size - 1];
    } else {
      forall v | Figure(v) ensures |Trim(Cut(r + key + "=" + v, size - 1))| > 1 {
        assert r + key + "=" + v == r + (key + "=" + v);
        TrimKeeps(r, key + "=" + v);
      }
    }
  }

  /** Nor does the updater, unless its buffer cuts off v itself, whatever it is. */
  lemma UpdaterMissesGlued(u: string, key: string, size: nat)
    requires !AllSpace(u) && CleanKey(key) && size > 0
    ensures || (forall v | Figure(v) :: Assigned(UpdaterTakes(u + key + "=" + v, size), key) != Some(v))
            || Assigned(UpdaterTakes(u + key + "=" + "0", size), key) == Assigned(UpdaterTakes(u + key + "=" + "1", size), key)
  {
    hide Split, Trim, TrimLeft, TrimRight, Until, Cut;
    var a := TrimLeft(u);
    var k := Until(a, {'='});
    SplitGlued(u, key, "0");
    SplitGlued(u, key, "1");
    FigureStays("0");
    FigureStays("1");
    if a[0] != '#' && |k| < |a| {
      CutValue(a[|k| + 1..], key, size);
    } else if a[0] != '#' {
      LongerKey(a, key);
    }
  }

  /** Behind a line end of its own the daemon reads nothing. */
  lemma DaemonStopsAtLineEnd(u: string, w: string)
    requires !Without(u, {'\r', '\n'})
    ensures DaemonTakes(u + w) == DaemonTakes(u)
  {
    UntilGlued(u, w, {'\r', '\n'});
  }

  /** Behind blanks alone, key=value is what it is. */
  lemma BlankGlued(u: string, key: string, value: string, size: nat)
    requires AllSpace(u) && CleanKey(key) && CleanValue(value, size)
    ensures UpdaterTakes(u + key + "=" + value, size) == Some((key, value))
    ensures Without(u, {'\r', '\n'}) ==> DaemonTakes(u + key + "=" + value) == Some((key, value))
  {
    SplitAssignment(u, key, value);
    CleanValueStays(value, size);
    if Without(u, {'\r', '\n'}) { DaemonTakesAssignment(u + key + "=" + value, u, key, value); }
  }

  // -------------------------------------------------------- reading back what was set

  lemma FiguresAreClean(size: nat)
    requires size > 1
    ensures forall v | Figure(v) :: CleanValue(v, size)
  {
    assert Unquote("0") == "0" && Unquote("1") == "1";
  }

  /** The daemon's condition: the last line it takes is one that is replaced; or none is, and
      what is behind the last newline is nothing but blanks, without a line end of its own. */
  predicate DaemonSafe(f: File, key: string) {
    if Holds(f, key) then !LastIsForeign(f, DaemonFor(key), Replacer(key))
    else AllSpace(Rest(f)) && Without(Rest(f), {'\r', '\n'})
  }

  /** The updater's: the first line it takes is one that is replaced; or none is, it takes none of
      the lines, and what is behind the last newline is nothing but blanks. */
  predicate UpdaterSafe(f: File, key: string, size: nat)
    requires size > 0
  {
    if Holds(f, key) then !FirstIsForeign(f, UpdaterFor(key, size), Replacer(key))
    else AllSpace(Rest(f)) && Updater(Lines(f), key, size) == None
  }

  lemma DaemonAfterSet(f: File, key: string, value: string, size: nat)
    requires CleanKey(key) && CleanValue(value, size)
    ensures Holds(f, key) ==>
              Daemon(Set(f, key, value), key) ==
              if LastIsForeign(f, DaemonFor(key), Replacer(key)) then Daemon(f, key) else Some(value)
    ensures !Holds(f, key) ==>
              var glued := Assigned(DaemonTakes(Rest(f) + key + "=" + value), key);
              Daemon(Set(f, key, value), key) == if glued.Some? then glued else Daemon(Lines(f), key)
  {
    hide DaemonTakes, UpdaterTakes, Replaces;
    BothFit(key, value, size);
    LastOfReplaced(f, DaemonFor(key), Replacer(key), key + "=" + value, value);
    ReadersOfAppended(f, DaemonFor(key), key + "=" + value);
    assert Rest(f) + (key + "=" + value) == Rest(f) + key + "=" + value;
  }

  lemma UpdaterAfterSet(f: File, key: string, value: string, size: nat)
    requires CleanKey(key) && CleanValue(value, size)
    ensures Holds(f, key) ==>
              Updater(Set(f, key, value), key, size) ==
              if FirstIsForeign(f, UpdaterFor(key, size), Replacer(key)) then Updater(f, key, size) else Some(value)
    ensures !Holds(f, key) ==>
              Updater(Set(f, key, value), key, size) ==
              if Updater(Lines(f), key, size).Some? then Updater(Lines(f), key, size)
              else Assigned(UpdaterTakes(Rest(f) + key + "=" + value, size), key)
  {
    hide DaemonTakes, UpdaterTakes, Replaces;
    BothFit(key, value, size);
    FirstOfReplaced(f, UpdaterFor(key, size), Replacer(key), key + "=" + value, value);
    ReadersOfAppended(f, UpdaterFor(key, size), key + "=" + value);
    assert Rest(f) + (key + "=" + value) == Rest(f) + key + "=" + value;
  }

  lemma DaemonReadsBack(f: File, key: string, value: string, size: nat)
    requires CleanKey(key) && CleanValue(value, size) && DaemonSafe(f, key)
    ensures Daemon(Set(f, key, value), key) == Some(value)
  {
    hide DaemonTakes, UpdaterTakes, Replaces;
    DaemonAfterSet(f, key, value, size);
    if !Holds(f, key) { BlankGlued(Rest(f), key, value, size); }
  }

  lemma UpdaterReadsBack(f: File, key: string, value: string, size: nat)
    requires CleanKey(key) && CleanValue(value, size) && UpdaterSafe(f, key, size)
    ensures Updater(Set(f, key, value), key, size) == Some(value)
  {
    hide DaemonTakes, UpdaterTakes, Replaces;
    UpdaterAfterSet(f, key, value, size);
    if !Holds(f, key) { BlankGlued(Rest(f), key, value, size); }
  }

  lemma DaemonMisses(f: File, key: string, size: nat) returns (v: string)
    requires CleanKey(key) && size > 1 && !DaemonSafe(f, key)
    ensures CleanValue(v, size) && Daemon(Set(f, key, v), key) != Some(v)
  {
    hide DaemonTakes, UpdaterTakes, Replaces;
    FiguresAreClean(size);
    DaemonAfterSet(f, key, "0", size);
    DaemonAfterSet(f, key, "1", size);
    if !Holds(f, key) {
      var u := Rest(f);
      if Without(u, {'\r', '\n'}) {
        DaemonMissesGlued(u, key, "0");
        DaemonMissesGlued(u, key, "1");
      } else {
        DaemonStopsAtLineEnd(u, key + "=" + "0");
        DaemonStopsAtLineEnd(u, key + "=" + "1");
        assert u + (key + "=" + "0") == u + key + "=" + "0" && u + (key + "=" + "1") == u + key + "=" + "1";
      }
    }
    v := if Daemon(Set(f, key, "0"), key) == Some("0") then "1" else "0";
  }

  lemma UpdaterMisses(f: File, key: string, size: nat) returns (v: string)
    requires CleanKey(key) && size > 1 && !UpdaterSafe(f, key, size)
    ensures CleanValue(v, size) && Updater(Set(f, key, v), key, size) != Some(v)
  {
    hide DaemonTakes, UpdaterTakes, Replaces;
    FiguresAreClean(size);
    UpdaterAfterSet(f, key, "0", size);
    UpdaterAfterSet(f, key, "1", size);
    if !Holds(f, key) && !AllSpace(Rest(f)) { UpdaterMissesGlued(Rest(f), key, size); }
    v := if Updater(Set(f, key, "0"), key, size) == Some("0") then "1" else "0";
  }

  /** In any file, the daemon reads back every value that is set if and only if the last line it
      takes for the key is one that is replaced; or none is, and what is behind the last newline is
      nothing but blanks without a CR. */
  lemma DaemonReadsBackExactly(f: File, key: string, size: nat)
    requires CleanKey(key) && size > 1
    ensures (forall v | CleanValue(v, size) :: Daemon(Set(f, key, v), key) == Some(v)) <==> DaemonSafe(f, key)
  {
    hide DaemonTakes, UpdaterTakes, Replaces;
    if DaemonSafe(f, key) {
      forall v | CleanValue(v, size) ensures Daemon(Set(f, key, v), key) == Some(v) { DaemonReadsBack(f, key, v, size); }
    } else {
      var v := DaemonMisses(f, key, size);
    }
  }

  /** In any file, the updater reads back every value that is set if and only if the first line it
      takes for the key is one that is replaced; or none is, it takes none, and what is behind the
      last newline is nothing but blanks. */
  lemma UpdaterReadsBackExactly(f: File, key: string, size: nat)
    requires CleanKey(key) && size > 1
    ensures (forall v | CleanValue(v, size) :: Updater(Set(f, key, v), key, size) == Some(v)) <==> UpdaterSafe(f, key, size)
  {
    hide DaemonTakes, UpdaterTakes, Replaces;
    if UpdaterSafe(f, key, size) {
      forall v | CleanValue(v, size) ensures Updater(Set(f, key, v), key, size) == Some(v) {
        UpdaterReadsBack(f, key, v, size);
      }
    } else {
      var v := UpdaterMisses(f, key, size);
    }
  }

  // ------------------------------------------------------------------- other keys

  lemma {:induction false} OtherInReplaced(f: File, take: Taker, matching: string -> bool, line: string)
    requires take("") == None && take(line) == None && forall l | matching(l) :: take(l) == None
    ensures Last(Replace(f, matching, line), take) == Last(f, take)
    ensures First(Replace(f, matching, line), take) == First(f, take)
    decreases f
  {
    match f
    case End(u) =>
    case Line(_, rest) => OtherInReplaced(rest, take, matching, line);
  }

  /** What is behind the last newline, with key= glued to it, is an assignment of `other`. */
  predicate GluesOnto(u: string, key: string, other: string) {
    var s := Split(u + key + "=");
    s.Some? && (s.value.0 == other || Cut(Trim(s.value.0), 255) == other)
  }

  lemma TrimRightKeepsKey(a: string)
    ensures Until(TrimRight(a), {'='}) == Until(a, {'='}) || |Until(a, {'='})| == |a|
  {
    hide Until, TrimRight;
    TrimRightFront(a);
    UntilGlued(TrimRight(a), a[|TrimRight(a)|..], {'='});
    UntilGlued(a, "", {'='});
    assert a == TrimRight(a) + a[|TrimRight(a)|..];
    if |Until(TrimRight(a), {'='})| == |TrimRight(a)| {
      assert Without(a, {'='});
    }
  }

  lemma {:induction false} TrimRightFront(a: string)
    ensures TrimRight(a) <= a && AllSpace(a[|TrimRight(a)|..])
    ensures a != "" && !Space(a[0]) ==> TrimRight(a) != ""
    decreases |a|
  {
    if a != "" && Space(a[|a| - 1]) {
      TrimRightFront(a[..|a| - 1]);
      assert TrimRight(a) <= a;
      forall i | 0 <= i < |a[|TrimRight(a)|..]| ensures Space(a[|TrimRight(a)|..][i]) {
        assert a[|TrimRight(a)|..][i] == a[|TrimRight(a)| + i];
        assert i < |a| - 1 - |TrimRight(a)| ==> a[..|a| - 1][|TrimRight(a)|..][i] == a[|TrimRight(a)| + i];
      }
    }
  }

  lemma SplitRest(u: string)
    ensures AllSpace(u) ==> Split(u) == None
    ensures !AllSpace(u) ==>
              var a := TrimLeft(u);
              var k := Until(a, {'='});
              && a != "" && |k| <= |a|
              && (if a[0] == '#' || |k| == |a| then Split(u) == None else Split(u).Some? && Split(u).value.0 == k)
  {
    if AllSpace(u) {
      SpaceTrims(u);
    } else {
      var a := TrimLeft(u);
      TrimLeftGlued(u, "");
      TrimRightFront(a);
      TrimRightKeepsKey(a);
      UntilGlued(TrimRight(a), "", {'='});
      UntilGlued(a, "", {'='});
      assert Trim(u) == TrimRight(a) && TrimRight(a)[0] == a[0];
    }
  }

  lemma {:induction false} SpaceTrims(u: string)
    requires AllSpace(u)
    ensures TrimLeft(u) == ""
    decreases |u|
  {
    if u != "" {
      assert forall i | 0 <= i < |u| - 1 :: u[1..][i] == u[i + 1];
      SpaceTrims(u[1..]);
    }
  }

  /** The key of a glued line does not depend on the value, and is that of the rest in front when it
      has one. */
  lemma GluedKey(u: string, key: string, value: string)
    requires CleanKey(key)
    ensures var s, t := Split(u + key + "="), Split(u + key + "=" + value);
            s.Some? == t.Some? && (s.Some? ==> s.value.0 == t.value.0)
    ensures Split(u).Some? ==> Split(u + key + "=").Some? && Split(u + key + "=").value.0 == Split(u).value.0
  {
    assert u + key + "=" + "" == u + key + "=";
    SplitRest(u);
    if AllSpace(u) {
      SplitAssignment(u, key, "");
      SplitAssignment(u, key, value);
    } else {
      SplitGlued(u, key, "");
      SplitGlued(u, key, value);
    }
  }

  lemma UntilOfClean(u: string, key: string, value: string)
    requires Without(u, {'\r', '\n'}) && CleanKey(key) && Without(value, {'\r', '\n'})
    ensures Until(u + key + "=" + value, {'\r', '\n'}) == u + key + "=" + value
    ensures Until(u, {'\r', '\n'}) == u
  {
    var line := u + key + "=" + value;
    UntilGlued(line, "", {'\r', '\n'});
    UntilGlued(u, "", {'\r', '\n'});
    assert Without(line, {'\r', '\n'});
  }

  /** A line glued onto no assignment of `other` changes nothing about `other`. */
  lemma GluedMeansNothingTo(u: string, key: string, value: string, other: string, size: nat)
    requires CleanKey(key) && Without(value, {'\r', '\n'}) && size > 0 && !GluesOnto(u, key, other)
    ensures Assigned(DaemonTakes(u + key + "=" + value), other) == Assigned(DaemonTakes(u), other)
    ensures Assigned(UpdaterTakes(u + key + "=" + value, size), other) == None
    ensures Assigned(UpdaterTakes(u, size), other) == None
  {
    GluedKey(u, key, value);
    if Without(u, {'\r', '\n'}) {
      UntilOfClean(u, key, value);
    } else {
      DaemonStopsAtLineEnd(u, key + "=" + value);
      assert u + (key + "=" + value) == u + key + "=" + value;
    }
  }

  lemma OtherInAppended(f: File, key: string, value: string, other: string, size: nat)
    requires CleanKey(key) && CleanValue(value, size) && !GluesOnto(Rest(f), key, other)
    ensures Last(Append(f, key + "=" + value), DaemonFor(other)) == Daemon(f, other)
    ensures First(Append(f, key + "=" + value), UpdaterFor(other, size)) == Updater(f, other, size)
  {
    hide DaemonTakes, UpdaterTakes, Replaces, GluesOnto;
    EmptyLine(key, size);
    GluedMeansNothingTo(Rest(f), key, value, other, size);
    assert Rest(f) + (key + "=" + value) == Rest(f) + key + "=" + value;
    ReadersOfAppended(f, DaemonFor(other), key + "=" + value);
    ReadersOfAppended(f, UpdaterFor(other, size), key + "=" + value);
    ReadersOfRest(f, DaemonFor(other));
    ReadersOfRest(f, UpdaterFor(other, size));
  }

  /** Setting a key leaves what both readers take for every other key as it was, unless the line is
      appended and what is behind the last newline turns it into an assignment of that key. */
  lemma OtherKeysAreUntouched(f: File, key: string, value: string, other: string, size: nat)
    requires CleanKey(key) && CleanValue(value, size) && other != key
    requires Holds(f, key) || !GluesOnto(Rest(f), key, other)
    ensures Daemon(Set(f, key, value), other) == Daemon(f, other)
    ensures Updater(Set(f, key, value), other, size) == Updater(f, other, size)
  {
    hide DaemonTakes, UpdaterTakes, Replaces, GluesOnto;
    if Holds(f, key) {
      OtherInReplacedFile(f, key, value, other, size);
    } else {
      OtherInAppended(f, key, value, other, size);
    }
  }

  lemma OtherInReplacedFile(f: File, key: string, value: string, other: string, size: nat)
    requires CleanKey(key) && CleanValue(value, size) && other != key
    ensures Last(Replace(f, Replacer(key), key + "=" + value), DaemonFor(other)) == Daemon(f, other)
    ensures First(Replace(f, Replacer(key), key + "=" + value), UpdaterFor(other, size)) == Updater(f, other, size)
  {
    hide DaemonTakes, UpdaterTakes, Replaces;
    var line := key + "=" + value;
    EmptyLine(key, size);
    WrittenIsTaken(key, value, size);
    forall l | Replaces(l, key) ensures DaemonFor(other)(l) == None && UpdaterFor(other, size)(l) == None {
      ReplacedIsTaken(l, key, size);
    }
    OtherInReplaced(f, DaemonFor(other), Replacer(key), line);
    OtherInReplaced(f, UpdaterFor(other, size), Replacer(key), line);
  }

  /** In a terminated file a line is never glued onto another key. */
  lemma TerminatedGluesOntoNothing(key: string, other: string)
    requires CleanKey(key) && other != key
    ensures !GluesOnto("", key, other)
  {
    SplitAssignment("", key, "");
    assert "" + key + "=" + "" == "" + key + "=";
    TrimClean(key);
  }

  lemma SplitSpaced(key: string, value: string)
    requires CleanKey(key) && value != "" && !Space(value[0]) && !Space(value[|value| - 1])
    ensures Split(key + " = " + value) == Some((key + " ", " " + value))
  {
    var head, tail := key + " =", " " + value;
    var line := key + " = " + value;
    assert line == head + tail;
    assert TrimLeft(line) == line;
    TrimRightBehind(head, tail);
    assert TrimRight(tail) == tail;
    assert Trim(line) == TrimRight(TrimLeft(line)) == line;
    UntilBehind(key + " ", "=" + tail, {'='});
    assert Until("=" + tail, {'='}) == "" && line == key + " " + ("=" + tail);
    assert Until(line, {'='}) == key + " " + "" == key + " ";
    assert line[0] == key[0] && line[|key| + 2..] == tail;
  }

  lemma TrimSpaced(key: string, value: string)
    requires CleanKey(key) && value != "" && !Space(value[0]) && !Space(value[|value| - 1])
    ensures Trim(key + " ") == key && Trim(" " + value) == value
  {
    TrimClean(key);
    TrimClean(value);
    assert TrimLeft(key + " ") == key + " ";
    TrimRightBehind(key, " ");
    assert TrimRight(" ") == "" && key + "" == key;
    assert Trim(key + " ") == TrimRight(TrimLeft(key + " ")) == key;
    TrimLeftBlanks(" ", value);
  }

  /** "key = value" assigns key to the daemon, "key " to the updater, and is passed by when key is
      set. */
  lemma ThreeOpinions(key: string, value: string, size: nat)
    requires CleanKey(key) && CleanValue(value, size) && value != ""
    ensures DaemonTakes(key + " = " + value) == Some((key, value))
    ensures Assigned(UpdaterTakes(key + " = " + value, size), key) == None
    ensures !Replaces(key + " = " + value, key)
  {
    var line := key + " = " + value;
    UntilBehind(line, "", {'\r', '\n'});
    assert line + "" == line;
    SplitSpaced(key, value);
    TrimSpaced(key, value);
    assert key + " " != key by { assert |key + " "| != |key|; }
    assert SkipBlanks(line) == line && line[|key|] == ' ';
    assert (key + "=")[|key|] == '=';
  }

  /** So the two readers can disagree about a key that was just set, whatever was there before. */
  lemma ReadersCanDisagree(key: string, before: string, hidden: string, value: string, size: nat)
    requires CleanKey(key) && CleanValue(hidden, size) && hidden != "" && CleanValue(value, size)
    ensures var f := Line(key + "=" + before, Line(key + " = " + hidden, End("")));
            Daemon(Set(f, key, value), key) == Some(hidden) && Updater(Set(f, key, value), key, size) == Some(value)
  {
    hide DaemonTakes, UpdaterTakes, Replaces;
    ThreeOpinions(key, hidden, size);
    EmptyLine(key, size);
    WrittenIsTaken(key, value, size);
    PlainLine(key, before);
    var written, spaced := key + "=" + value, Line(key + " = " + hidden, End(""));
    assert Replace(spaced, Replacer(key), written) == spaced;
    assert Set(Line(key + "=" + before, spaced), key, value) == Line(written, spaced);
    assert Last(spaced, DaemonFor(key)) == Some(hidden);
  }

  lemma PlainLine(key: string, value: string)
    requires CleanKey(key)
    ensures Replaces(key + "=" + value, key)
  {
    assert SkipBlanks(key + "=" + value) == key + "=" + value;
  }

  lemma GluesOntoItself(u: string, key: string)
    requires CleanKey(key) && !AllSpace(u)
    ensures GluesOnto(u, key, key) ==> Split(u).Some? && (Split(u).value.0 == key || Cut(Trim(Split(u).value.0), 255) == key)
  {
    assert u + key + "=" + "" == u + key + "=";
    SplitGlued(u, key, "");
    SplitRest(u);
    LongerKey(TrimLeft(u), key);
  }

  /** Appended behind something visible that is no assignment of the key, whatever the value, the
      line is lost: both readers read for the key what they read before. */
  lemma GluedToTheLastLine(f: File, key: string, value: string, size: nat)
    requires CleanKey(key) && CleanValue(value, size) && !Holds(f, key) && !AllSpace(Rest(f))
    requires var s := Split(Rest(f)); s.Some? ==> s.value.0 != key && Cut(Trim(s.value.0), 255) != key
    ensures Daemon(Set(f, key, value), key) == Daemon(f, key)
    ensures Updater(Set(f, key, value), key, size) == Updater(f, key, size)
  {
    hide DaemonTakes, UpdaterTakes, Replaces, GluesOnto, Split;
    GluesOntoItself(Rest(f), key);
    OtherInAppended(f, key, value, key, size);
  }

  /** And the key of that last line, if it is an assignment, changes its value: the glued text is
      part of it. */
  lemma GluedValueChanges(f: File, blanks: string, other: string, before: string, key: string, value: string, size: nat)
    requires CleanKey(key) && CleanValue(value, size) && !Holds(f, key) && CleanKey(other)
    requires Rest(f) == blanks + other + "=" + before && AllSpace(blanks) && Without(Rest(f), {'\r', '\n'})
    ensures Daemon(Set(f, key, value), other) == Some(Unquote(Cut(Trim(before + key + "=" + value), 255)))
    ensures Updater(Lines(f), other, size) == None ==>
              Updater(Set(f, key, value), other, size) == Some(Trim(Cut(before + key + "=" + value, size - 1)))
  {
    hide DaemonTakes, UpdaterTakes, Replaces;
    GluedLineOf(blanks, other, before, key, value, size);
    EmptyLine(key, size);
    ReadersOfAppended(f, DaemonFor(other), key + "=" + value);
    ReadersOfAppended(f, UpdaterFor(other, size), key + "=" + value);
    assert Rest(f) + (key + "=" + value) == blanks + other + "=" + (before + key + "=" + value);
  }

  lemma GluedLineOf(blanks: string, other: string, before: string, key: string, value: string, size: nat)
    requires CleanKey(key) && CleanValue(value, size) && CleanKey(other)
    requires AllSpace(blanks) && Without(blanks + other + "=" + before, {'\r', '\n'})
    ensures var line, all := blanks + other + "=" + (before + key + "=" + value), before + key + "=" + value;
            && DaemonTakes(line) == Some((other, Unquote(Cut(Trim(all), 255))))
            && UpdaterTakes(line, size) == Some((other, Trim(Cut(all, size - 1))))
  {
    var all := before + key + "=" + value;
    var line := blanks + other + "=" + all;
    var head := before + key + "=";
    TrimRightBehind(head, value);
    TrimClean(value);
    assert TrimRight(all) == all;
    forall i | 0 <= i < |blanks| ensures blanks[i] !in {'\r', '\n'} {
      assert (blanks + other + "=" + before)[i] == blanks[i];
    }
    forall i | 0 <= i < |before| ensures before[i] !in {'\r', '\n'} {
      assert (blanks + other + "=" + before)[|blanks + other + "="| + i] == before[i];
    }
    assert Without(all, {'\r', '\n'});
    UntilGlued(all, "", {'\r', '\n'});
    assert Until(all, {'\r', '\n'}) == all;
    DaemonTakesAssignment(line, blanks, other, all);
    SplitAssignment(blanks, other, all);
  }

  // ------------------------------------------------------------------- the C code

  /** The bytes of a file. */
  function Text(f: File): string {
    match f
    case End(u) => u
    case Line(text, rest) => text + "\n" + Text(rest)
  }

  /** Lines that fit a buffer of `size` with newline and terminator. */
  predicate Fit(f: File, size: nat) {
    match f
    case End(u) => '\n' !in u && |u| + 1 < size
    case Line(text, rest) => '\n' !in text && |text| + 2 <= size && Fit(rest, size)
  }

  /** What one fgets takes of a file, and what it leaves. */
  function Chunk(f: File): string {
    if f.Line? then f.text + "\n" else f.unterminated
  }

  function Behind(f: File): File {
    if f.Line? then f.rest else End("")
  }

  lemma TextOfChunk(f: File)
    ensures Text(f) == Chunk(f) + Text(Behind(f))
  {
  }

  /** fgets: up to and with the next newline, but at most size - 1 characters. */
  method Fgets(text: string, at: nat, size: nat, ghost f: File) returns (line: string)
    requires at <= |text| && text[at..] == Text(f) && Fit(f, size)
    ensures line == Chunk(f) && at + |line| <= |text| && text[at + |line|..] == Text(Behind(f))
  {
    ghost var first := if f.Line? then f.text else f.unterminated;
    forall i | 0 <= i < |first| ensures at + i < |text| && text[at + i] == first[i] {
      assert text[at..][i] == first[i];
    }
    assert f.Line? ==> text[at..][|first|] == '\n';
    var n := 0;
    while at + n < |text| && n < size - 1 && (n == 0 || text[at + n - 1] != '\n')
      invariant at + n <= |text| && n <= |first| + (if f.Line? then 1 else 0)
      decreases |text| - n
    {
      n := n + 1;
    }
    line := text[at..at + n];
    TextOfChunk(f);
    assert line == text[at..][..n] && text[at + n..] == text[at..][n..];
  }

  /** Taking the newline along does not change which lines are replaced. */
  lemma {:induction false} SkipBlanksInChunk(line: string)
    ensures SkipBlanks(line + "\n") == SkipBlanks(line) + "\n"
    decreases |line|
  {
    if line == "" {
      assert line + "\n" == "\n";
    } else {
      assert (line + "\n")[1..] == line[1..] + "\n";
      SkipBlanksInChunk(line[1..]);
    }
  }

  lemma PrefixOfLine(head: string, line: string)
    requires head != "" && head[|head| - 1] != '\n'
    ensures head <= line + "\n" <==> head <= line
  {
    var chunk := line + "\n";
    assert chunk[|line|] == '\n';
    if head <= chunk {
      assert head[|head| - 1] == chunk[|head| - 1];
      assert chunk[..|head|] == line[..|head|];
    }
    assert |head| <= |line| ==> chunk[..|head|] == line[..|head|];
  }

  lemma ReplacesChunk(line: string, key: string)
    ensures Replaces(line + "\n", key) == Replaces(line, key)
  {
    SkipBlanksInChunk(line);
    PrefixOfLine(key + "=", SkipBlanks(line));
  }

  /** What one chunk becomes in config_set_value, and whether it is replaced. */
  lemma OneChunk(f: File, key: string, written: string, done: string)
    requires Chunk(f) != ""
    ensures var m := Replacer(key);
            && done + Text(Replace(f, m, written)) ==
               done + (if Replaces(Chunk(f), key) then written + "\n" else Chunk(f)) + Text(Replace(Behind(f), m, written))
            && Matches(f, m) == (Replaces(Chunk(f), key) || Matches(Behind(f), m))
  {
    hide Replaces;
    EmptyLine(key, 1);
    if f.Line? { ReplacesChunk(f.text, key); }
  }

  lemma {:induction false} TextOfAppended(f: File, line: string)
    ensures Text(Append(f, line)) == Text(f) + line + "\n"
    decreases f
  {
    match f
    case End(u) =>
    case Line(text, rest) =>
      TextOfAppended(rest, line);
      assert text + "\n" + (Text(rest) + line + "\n") == text + "\n" + Text(rest) + line + "\n";
  }

  lemma EndOfText(f: File, m: string -> bool, written: string)
    requires Text(f) == "" && !m("")
    ensures Text(Replace(f, m, written)) == "" && !Matches(f, m)
  {
    assert f.Line? ==> |Text(f)| > 0;
  }

  /** `out` is written for the lines of f before `rest`. */
  ghost predicate SoFar(f: File, key: string, written: string, text: string, rest: File, out: string, replaced: bool) {
    var m := Replacer(key);
    && out + Text(Replace(rest, m, written)) == Text(Replace(f, m, written))
    && Matches(f, m) == (replaced || Matches(rest, m))
    && (!replaced ==> out + Text(rest) == text)
  }

  lemma NothingYet(f: File, key: string, written: string)
    ensures SoFar(f, key, written, Text(f), f, "", false)
  {
    assert "" + Text(Replace(f, Replacer(key), written)) == Text(Replace(f, Replacer(key), written));
    assert "" + Text(f) == Text(f);
  }

  lemma OneChunkFurther(f: File, key: string, written: string, text: string, rest: File, out: string, replaced: bool)
    requires SoFar(f, key, written, text, rest, out, replaced) && Chunk(rest) != ""
    ensures if Replaces(Chunk(rest), key) then SoFar(f, key, written, text, Behind(rest), out + (written + "\n"), true)
            else SoFar(f, key, written, text, Behind(rest), out + Chunk(rest), replaced)
  {
    hide Replaces;
    OneChunk(rest, key, written, out);
    TextOfChunk(rest);
    Join(out, Chunk(rest), Text(Behind(rest)));
  }

  lemma Join(a: string, b: string, c: string)
    ensures a + (b + c) == a + b + c
  {
  }

  lemma AllWritten(f: File, key: string, value: string, text: string, rest: File, out: string, replaced: bool)
    requires SoFar(f, key, key + "=" + value, text, rest, out, replaced) && Text(rest) == "" && text == Text(f)
    ensures Text(Set(f, key, value)) == if replaced then out else out + (key + "=" + value + "\n")
  {
    hide Replaces;
    var m, written := Replacer(key), key + "=" + value;
    EmptyLine(key, 1);
    EndOfText(rest, m, written);
    assert out + "" == out;
    if !replaced {
      TextOfAppended(f, written);
      Join(out, written, "\n");
    }
  }

  /** config_set_value: the text it writes for a file whose lines fit its buffer. */
  method SetValue(text: string, key: string, value: string, ghost f: File) returns (out: string)
    requires text == Text(f) && Fit(f, 512)
    ensures out == Text(Set(f, key, value))
  {
    hide Replaces, SoFar;
    var at, replaced := 0, false;
    ghost var rest, written := f, key + "=" + value;
    out := "";
    assert text[0..] == text;
    NothingYet(f, key, written);
    while at < |text|
      invariant at <= |text| && text[at..] == Text(rest) && Fit(rest, 512)
      invariant SoFar(f, key, written, text, rest, out, replaced)
    {
      var line := Fgets(text, at, 512, rest);
      assert text[at..] != "";
      OneChunkFurther(f, key, written, text, rest, out, replaced);
      if Replaces(line, key) {
        out := out + (key + "=" + value + "\n");
        replaced := true;
      } else {
        out := out + line;
      }
      at := at + |line|;
      rest := Behind(rest);
    }
    AllWritten(f, key, value, text, rest, out, replaced);
    if !replaced { out := out + (key + "=" + value + "\n"); }
  }

  /** Taking the newline along does not change what a reader takes. */
  lemma TakenFromChunk(line: string, size: nat)
    requires '\n' !in line && size > 0
    ensures DaemonTakes(line + "\n") == DaemonTakes(line) && UpdaterTakes(line + "\n", size) == UpdaterTakes(line, size)
  {
    UntilNewline(line);
    TrimNewline(line);
  }

  lemma {:induction false} UntilNewline(line: string)
    requires '\n' !in line
    ensures Until(line + "\n", {'\r', '\n'}) == Until(line, {'\r', '\n'})
    decreases |line|
  {
    if line == "" {
      assert line + "\n" == "\n";
    } else {
      assert (line + "\n")[1..] == line[1..] + "\n";
      UntilNewline(line[1..]);
    }
  }

  lemma {:induction false} TrimNewline(line: string)
    ensures Trim(line + "\n") == Trim(line)
    decreases |line|
  {
    if line == "" {
      assert line + "\n" == "\n" && TrimLeft("\n") == "";
    } else if Space(line[0]) {
      assert (line + "\n")[1..] == line[1..] + "\n";
      TrimNewline(line[1..]);
      assert Trim(line + "\n") == Trim(line[1..] + "\n");
    } else {
      assert TrimLeft(line + "\n") == line + "\n" && TrimLeft(line) == line;
      assert (line + "\n")[..|line|] == line;
    }
  }

  /** read_cfg_value over a file whose lines fit its buffer. */
  method ReadCfgValue(text: string, key: string, size: nat, ghost f: File) returns (value: Option<string>)
    requires text == Text(f) && Fit(f, 256) && size > 0
    ensures value == Updater(f, key, size)
  {
    hide UpdaterTakes;
    var at := 0;
    ghost var rest := f;
    assert text[0..] == text;
    while at < |text|
      invariant at <= |text| && text[at..] == Text(rest) && Fit(rest, 256)
      invariant Updater(f, key, size) == Updater(rest, key, size)
    {
      var line := Fgets(text, at, 256, rest);
      assert text[at..] != "";
      if rest.Line? { TakenFromChunk(rest.text, size); }
      value := Assigned(UpdaterTakes(line, size), key);
      if value.Some? { return; }
      EmptyLine(key, size);
      at := at + |line|;
      rest := Behind(rest);
    }
    EmptyLine(key, size);
    assert rest.Line? ==> |Text(rest)| > 0;
    return None;
  }

  /** config_load, as far as one key is concerned, over a file whose lines fit its buffer. */
  method Load(text: string, key: string, ghost f: File) returns (value: Option<string>)
    requires text == Text(f) && Fit(f, 512)
    ensures value == Daemon(f, key)
  {
    hide DaemonTakes;
    var at := 0;
    ghost var rest := f;
    value := None;
    assert text[0..] == text;
    while at < |text|
      invariant at <= |text| && text[at..] == Text(rest) && Fit(rest, 512)
      invariant Daemon(f, key) == if Daemon(rest, key).Some? then Daemon(rest, key) else value
    {
      var line := Fgets(text, at, 512, rest);
      assert text[at..] != "";
      if rest.Line? { TakenFromChunk(rest.text, 1); }
      var taken := Assigned(DaemonTakes(line), key);
      if taken.Some? { value := taken; }
      EmptyLine(key, 1);
      at := at + |line|;
      rest := Behind(rest);
    }
    EmptyLine(key, 1);
    assert rest.Line? ==> |Text(rest)| > 0;
  }
}
