/** The decisions `configure_logging` in `logging_config.py` makes: the
    level, directory and retention count (each overridden by its
    environment variable), which old log files are deleted before a new one
    is opened, and the name of the new file, whose sort order is its
    creation order. The environment, the file system listing (`glob` and
    `sorted`), `os.remove` and the clock are parameters. */
module LoggingConfig {
  import opened Text

  /** `str.upper` on one character, for every character whose capital is
      ASCII: the ASCII letters, dotless i and long s, sharp s (`SS`) and the
      Latin ligatures U+FB00 to U+FB06, whose capitals are two or three
      letters. Every other character is kept; for a non-ASCII one that
      differs from Python, whose capital is another non-ASCII text. */
  function UpperChars(c: char): (r: string)
    ensures 1 <= |r| <= 3
    ensures IsAscii(c) ==> |r| == 1 && IsAscii(r[0])
  {
    if 'a' <= c <= 'z' then [(c as int - 32) as char]
    else if c == 'ı' then "I"
    else if c == 'ſ' then "S"
    else if c == 'ß' then "SS"
    else if c == '\U{FB00}' then "FF"
    else if c == '\U{FB01}' then "FI"
    else if c == '\U{FB02}' then "FL"
    else if c == '\U{FB03}' then "FFI"
    else if c == '\U{FB04}' then "FFL"
    else if c == '\U{FB05}' || c == '\U{FB06}' then "ST"
    else [c]
  }

  predicate IsAscii(c: char) {
    c < 128 as char
  }

  /** `str.upper`: each character replaced by its capital. */
  function Upper(s: string): (r: string)
    ensures |r| >= |s|
  {
    if |s| == 0 then [] else UpperChars(s[0]) + Upper(s[1..])
  }

  /** Upper-casing distributes over concatenation. */
  lemma {:induction false} UpperConcat(s: string, t: string)
    ensures Upper(s + t) == Upper(s) + Upper(t)
  {
    if |s| > 0 {
      assert (s + t)[1..] == s[1..] + t;
      UpperConcat(s[1..], t);
    } else {
      assert s + t == t;
    }
  }

  /** A capital is its own capital. */
  lemma UpperCharsFixed(c: char)
    ensures Upper(UpperChars(c)) == UpperChars(c)
  {
    var r := UpperChars(c);
    if |r| == 1 {
      assert Upper(r) == UpperChars(r[0]) + Upper(r[1..]);
    } else {
      assert Upper(r) == UpperChars(r[0]) + Upper(r[1..]);
      assert Upper(r[1..]) == UpperChars(r[1]) + Upper(r[2..]);
      if |r| == 3 {
        assert Upper(r[2..]) == UpperChars(r[2]) + Upper(r[3..]);
      }
    }
  }

  /** Upper-casing twice changes nothing more. */
  lemma {:induction false} UpperIdempotent(s: string)
    ensures Upper(Upper(s)) == Upper(s)
  {
    if |s| > 0 {
      UpperConcat(UpperChars(s[0]), Upper(s[1..]));
      UpperCharsFixed(s[0]);
      UpperIdempotent(s[1..]);
    }
  }

  /** On a text with no sharp s or ligature, upper-casing keeps the length
      and maps each character to its one-letter capital. */
  lemma {:induction false} UpperOneToOne(s: string)
    requires forall i :: 0 <= i < |s| ==> |UpperChars(s[i])| == 1
    ensures Upper(s) == seq(|s|, i requires 0 <= i < |s| => UpperChars(s[i])[0])
  {
    if |s| > 0 {
      UpperOneToOne(s[1..]);
    }
  }

  /** The ASCII letter `c` read without its case. */
  function FoldCase(c: char): char {
    if 'a' <= c <= 'z' then (c as int - 32) as char else c
  }

  /** `s` and `t` spell the same text in upper or lower case ASCII
      letters. */
  predicate SameUpToCase(s: string, t: string) {
    |s| == |t| && forall i :: 0 <= i < |s| ==> FoldCase(s[i]) == FoldCase(t[i])
  }

  /** Texts that differ only in the case of their ASCII letters have the
      same capitals. */
  lemma {:induction false} UpperIgnoresCase(s: string, t: string)
    requires SameUpToCase(s, t)
    ensures Upper(s) == Upper(t)
  {
    if |s| > 0 {
      assert FoldCase(s[0]) == FoldCase(t[0]);
      assert UpperChars(s[0]) == UpperChars(t[0]);
      assert SameUpToCase(s[1..], t[1..]) by {
        forall i | 0 <= i < |s| - 1
          ensures FoldCase(s[1..][i]) == FoldCase(t[1..][i])
        {
          assert FoldCase(s[i + 1]) == FoldCase(t[i + 1]);
        }
      }
      UpperIgnoresCase(s[1..], t[1..]);
    }
  }

  /** `s` is written in capital ASCII letters and `_`. */
  predicate IsCapitals(s: string) {
    forall i :: 0 <= i < |s| ==> 'A' <= s[i] <= 'Z' || s[i] == '_'
  }

  /** A text of capitals is its own capital. */
  lemma {:induction false} UpperOfCapitals(s: string)
    requires IsCapitals(s)
    ensures Upper(s) == s
  {
    if |s| > 0 {
      UpperOfCapitals(s[1..]);
    }
  }

  /** Every spelling of a text of capitals upper-cases to it. */
  lemma CapitalsAnyCase(s: string, capitals: string)
    requires IsCapitals(capitals) && SameUpToCase(s, capitals)
    ensures Upper(s) == capitals
  {
    UpperIgnoresCase(s, capitals);
    UpperOfCapitals(capitals);
  }

  /** The level name in force: `PYTHON_LOG_LEVEL` when set, else the
      argument, upper-cased. */
  function EffectiveLevelName(logLevel: string, env: Option<string>): (r: string)
    ensures Upper(r) == r
    ensures env.Some? ==> |r| >= |env.value|
    ensures env.None? ==> |r| >= |logLevel|
  {
    var name := if env.Some? then env.value else logLevel;
    UpperIdempotent(name);
    Upper(name)
  }

  /** A set `PYTHON_LOG_LEVEL` decides the name, whatever the argument. */
  lemma EnvironmentOverridesLevel(logLevel: string, otherLevel: string, env: string)
    ensures EffectiveLevelName(logLevel, Some(env)) == EffectiveLevelName(otherLevel, Some(env))
  {
  }

  /** What `getattr(logging, name)` finds: a level number, a module
      attribute that is not a level, or nothing. */
  datatype Attribute = LevelNumber(n: int) | NotALevel | NoAttribute

  /** The upper-case attributes of the `logging` module. */
  function LevelAttribute(name: string): Attribute {
    if name == "CRITICAL" || name == "FATAL" then LevelNumber(50)
    else if name == "ERROR" then LevelNumber(40)
    else if name == "WARNING" || name == "WARN" then LevelNumber(30)
    else if name == "INFO" then LevelNumber(20)
    else if name == "DEBUG" then LevelNumber(10)
    else if name == "NOTSET" then LevelNumber(0)
    else if name == "BASIC_FORMAT" || name == "_STYLES" then NotALevel
    else NoAttribute
  }

  /** The level `configure_logging` ends up with, or the failure of
      `setLevel` when `getattr` found something that is not a level. */
  datatype LevelOutcome = Numeric(level: int) | Raises

  /** `getattr(logging, log_level, logging.INFO)` as written, followed by
      the `setLevel` it feeds. */
  function AsWrittenLevel(levelName: string): (r: LevelOutcome)
    ensures LevelAttribute(levelName).NotALevel? <==> r == Raises
  {
    match LevelAttribute(levelName)
    case LevelNumber(n) => Numeric(n)
    case NotALevel => Raises
    case NoAttribute => Numeric(20)
  }

  /** A spelling of a capital name reads as that name. */
  lemma NameAnyCase(logLevel: string, env: Option<string>, name: string)
    requires IsCapitals(name) && SameUpToCase(if env.Some? then env.value else logLevel, name)
    ensures EffectiveLevelName(logLevel, env) == name
  {
    CapitalsAnyCase(if env.Some? then env.value else logLevel, name);
  }

  /** Every name `getattr` finds in `logging` is written in capitals. */
  lemma AttributeNamesAreCapitals(name: string)
    requires !LevelAttribute(name).NoAttribute?
    ensures IsCapitals(name)
  {
  }

  /** A name read, in any case, as one that `getattr` finds gives what
      that attribute gives. */
  lemma ReadAs(logLevel: string, env: Option<string>, name: string)
    requires !LevelAttribute(name).NoAttribute?
    requires SameUpToCase(if env.Some? then env.value else logLevel, name)
    ensures AsWrittenLevel(EffectiveLevelName(logLevel, env)) == AsWrittenLevel(name)
    ensures NumericLevel(EffectiveLevelName(logLevel, env)) == NumericLevel(name)
  {
    AttributeNamesAreCapitals(name);
    NameAnyCase(logLevel, env, name);
  }

  /** The attributes that are not levels make `configure_logging` raise,
      whatever the case they are written in. */
  lemma NonLevelNamesRaise(logLevel: string, env: Option<string>, name: string)
    requires LevelAttribute(name).NotALevel?
    requires SameUpToCase(if env.Some? then env.value else logLevel, name)
    ensures AsWrittenLevel(EffectiveLevelName(logLevel, env)) == Raises
  {
    ReadAs(logLevel, env, name);
  }

  /** `PYTHON_LOG_LEVEL=basic_format` is one of them. */
  lemma BasicFormatRaises(logLevel: string, env: string)
    requires SameUpToCase(env, "basic_format")
    ensures AsWrittenLevel(EffectiveLevelName(logLevel, Some(env))) == Raises
  {
    NonLevelNamesRaise(logLevel, Some(env), "BASIC_FORMAT");
  }

  /** The capitals of `_` and the ligature for `st` followed by a spelling
      of `yles`. */
  lemma StylesLigatureUpper(env: string, rest: string)
    requires env == "_" + "\U{FB06}" + rest && SameUpToCase(rest, "YLES")
    ensures Upper(env) == "_STYLES"
  {
    CapitalsAnyCase(rest, "YLES");
    var front := "_" + "\U{FB06}";
    UpperConcat(front, rest);
    assert Upper(front) == "_ST" by {
      assert Upper(front) == UpperChars(front[0]) + Upper(front[1..]);
      assert Upper(front[1..]) == UpperChars(front[1]) + Upper(front[2..]);
    }
  }

  /** `_STYLES` spelled with the ligature for `st` raises too, through the
      two capitals of that one character. */
  lemma StylesLigatureRaises(logLevel: string, env: string, rest: string)
    requires env == "_" + "\U{FB06}" + rest && SameUpToCase(rest, "YLES")
    ensures AsWrittenLevel(EffectiveLevelName(logLevel, Some(env))) == Raises
  {
    StylesLigatureUpper(env, rest);
    assert EffectiveLevelName(logLevel, Some(env)) == "_STYLES";
  }

  /** The level number of a level name: the `logging` level of that name,
      and INFO (20) for every other name. */
  function NumericLevel(levelName: string): (n: int)
    ensures n in {0, 10, 20, 30, 40, 50}
    ensures LevelAttribute(levelName).LevelNumber? ==> n == LevelAttribute(levelName).n
    ensures !LevelAttribute(levelName).LevelNumber? ==> n == 20
  {
    match LevelAttribute(levelName)
    case LevelNumber(n) => n
    case _ => 20
  }

  /** The corrected level and the written one agree on every name that
      does not reach a non-level attribute. */
  lemma LevelAgreesOffNonLevels(levelName: string)
    requires !LevelAttribute(levelName).NotALevel?
    ensures AsWrittenLevel(levelName) == Numeric(NumericLevel(levelName))
  {
  }

  /** A level name is read whatever the case of its letters, from the
      environment or from the argument. */
  lemma LevelNamesAnyCase(logLevel: string, env: Option<string>, name: string)
    requires LevelAttribute(name).LevelNumber?
    requires SameUpToCase(if env.Some? then env.value else logLevel, name)
    ensures NumericLevel(EffectiveLevelName(logLevel, env)) == LevelAttribute(name).n
    ensures AsWrittenLevel(EffectiveLevelName(logLevel, env)) == Numeric(LevelAttribute(name).n)
  {
    ReadAs(logLevel, env, name);
  }

  /** The retention count in force: `PYTHON_LOG_MAX_FILES` read by `int`
      when set (`None`: `int` raises), else the argument. */
  function MaxLogFiles(maxLogFiles: int, env: Option<string>): (r: Option<int>)
    ensures env.None? ==> r == Some(maxLogFiles)
  {
    if env.Some? then PyInt(env.value) else Some(maxLogFiles)
  }

  /** A count written with `str` in the environment is read back. */
  lemma MaxLogFilesFromEnvironment(maxLogFiles: int, n: int)
    requires FitsStr(if n < 0 then -n else n)
    ensures MaxLogFiles(maxLogFiles, Some(IntString(n))) == Some(n)
  {
    IntStringRoundTrip(n);
  }

  /** The log directory in force: `PYTHON_LOG_DIR` when set, else the
      argument; file logging happens only for a non-empty directory. */
  function LogDirectory(logDir: Option<string>, env: Option<string>): (r: Option<string>)
    ensures r.Some? ==> r.value != ""
    ensures env.Some? && env.value != "" ==> r == env
    ensures env.None? && logDir.Some? && logDir.value != "" ==> r == logDir
  {
    var dir := if env.Some? then env else logDir;
    if dir.Some? && dir.value != "" then dir else None
  }

  /** `s[:k]` on a list. */
  function SliceTo<T>(s: seq<T>, k: int): (r: seq<T>)
    ensures |r| <= |s| && r == s[..|r|]
    ensures 0 <= k ==> |r| == if k < |s| then k else |s|
  {
    if k >= 0 then s[..if k < |s| then k else |s|]
    else s[..if |s| + k > 0 then |s| + k else 0]
  }

  /** The old logs `configure_logging` deletes, given the sorted list of
      existing log files. */
  function FilesToDelete(existingLogs: seq<string>, maxLogFiles: int): seq<string> {
    if |existingLogs| >= maxLogFiles then SliceTo(existingLogs, |existingLogs| - maxLogFiles + 1) else []
  }

  /** The deleted files are the first ones of the list; with fewer logs
      than the count nothing is deleted; with a count of at least one,
      `maxLogFiles - 1` logs remain (or all of them, when there are fewer),
      which leaves room for the new one; with a count below one every log
      goes. */
  lemma FilesToDeleteCount(existingLogs: seq<string>, maxLogFiles: int)
    ensures var deleted := FilesToDelete(existingLogs, maxLogFiles);
            && deleted == existingLogs[..|deleted|]
            && (|existingLogs| < maxLogFiles ==> deleted == [])
            && (maxLogFiles >= 1 ==>
                  |existingLogs| - |deleted| == if |existingLogs| < maxLogFiles - 1 then |existingLogs| else maxLogFiles - 1)
            && (maxLogFiles < 1 ==> deleted == existingLogs)
  {
  }

  /** Python's `<` on strings: code points compared in order, a proper
      prefix first. */
  predicate LexLess(a: string, b: string)
    decreases |a|
  {
    |b| > 0 && (|a| == 0 || a[0] < b[0] || (a[0] == b[0] && LexLess(a[1..], b[1..])))
  }

  predicate LexLe(a: string, b: string) {
    a == b || LexLess(a, b)
  }

  predicate Sorted(s: seq<string>) {
    forall i, j :: 0 <= i < j < |s| ==> LexLe(s[i], s[j])
  }

  /** On a sorted list, no kept log sorts before a deleted one. */
  lemma OldestAreDeleted(existingLogs: seq<string>, maxLogFiles: int)
    requires Sorted(existingLogs)
    ensures var deleted := FilesToDelete(existingLogs, maxLogFiles);
            forall i, j :: 0 <= i < |deleted| <= j < |existingLogs| ==> LexLe(deleted[i], existingLogs[j])
  {
    FilesToDeleteCount(existingLogs, maxLogFiles);
  }

  /** The directory the logs live in: the files present, and those that
      `os.remove` cannot delete (held open by another process). */
  class LogFolder {
    var files: set<string>
    const inUse: set<string>

    constructor (files: set<string>, inUse: set<string>)
      ensures this.files == files && this.inUse == inUse
    {
      this.files := files;
      this.inUse := inUse;
    }

    /** `os.remove(path)`: raises `OSError` when the file is missing or in
        use, and deletes it otherwise. */
    method Remove(path: string) returns (raised: bool)
      modifies this`files
      ensures raised <==> path !in old(files) || path in inUse
      ensures files == if raised then old(files) else old(files) - {path}
    {
      if path !in files || path in inUse {
        return true;
      }
      files := files - {path};
      raised := false;
    }
  }

  /** The clean-up of `configure_logging`: deletes each file chosen by
      `FilesToDelete`, passing over the ones `os.remove` fails on. */
  method RemoveOldLogs(folder: LogFolder, existingLogs: seq<string>, maxLogFiles: int)
    modifies folder`files
    ensures folder.files == old(folder.files) - (set f | f in FilesToDelete(existingLogs, maxLogFiles) && f !in folder.inUse)
  {
    if |existingLogs| >= maxLogFiles {
      var filesToDelete := SliceTo(existingLogs, |existingLogs| - maxLogFiles + 1);
      for i := 0 to |filesToDelete|
        invariant folder.files == old(folder.files) - (set f | f in filesToDelete[..i] && f !in folder.inUse)
      {
        var _ := folder.Remove(filesToDelete[i]);
        assert filesToDelete[..i + 1] == filesToDelete[..i] + [filesToDelete[i]];
      }
      assert filesToDelete[..|filesToDelete|] == filesToDelete;
    } else {
      assert FilesToDelete(existingLogs, maxLogFiles) == [];
    }
  }

  /** `datetime.now()` to the second. */
  datatype Timestamp = Timestamp(year: int, month: int, day: int, hour: int, minute: int, second: int)

  predicate ValidTimestamp(t: Timestamp) {
    && 1000 <= t.year <= 9999 && 1 <= t.month <= 12 && 1 <= t.day <= 31
    && 0 <= t.hour <= 23 && 0 <= t.minute <= 59 && 0 <= t.second <= 59
  }

  /** `a` is earlier than `b`. */
  predicate Before(a: Timestamp, b: Timestamp) {
    || a.year < b.year
    || (a.year == b.year && a.month < b.month)
    || (a.year == b.year && a.month == b.month && a.day < b.day)
    || (a.year == b.year && a.month == b.month && a.day == b.day && a.hour < b.hour)
    || (a.year == b.year && a.month == b.month && a.day == b.day && a.hour == b.hour && a.minute < b.minute)
    || (a.year == b.year && a.month == b.month && a.day == b.day && a.hour == b.hour && a.minute == b.minute
        && a.second < b.second)
  }

  function Pow10(w: nat): (p: nat)
    ensures p >= 1
  {
    if w == 0 then 1 else 10 * Pow10(w - 1)
  }

  /** `n` in decimal, zero-padded to `width` digits. */
  function Pad(n: nat, width: nat): (r: string)
    ensures |r| == width
  {
    if width == 0 then "" else Pad(n / 10, width - 1) + [DigitChar(n % 10)]
  }

  /** `strftime('%Y%m%d_%H%M%S')`. */
  function Stamp(t: Timestamp): (r: string)
    requires ValidTimestamp(t)
    ensures |r| == 15
  {
    Pad(t.year, 4) + (Pad(t.month, 2) + (Pad(t.day, 2) + ("_" + (Pad(t.hour, 2) + (Pad(t.minute, 2) + Pad(t.second, 2))))))
  }

  /** The name of the log file opened at `t`. */
  function LogFileName(t: Timestamp): string
    requires ValidTimestamp(t)
  {
    "celbridge_host_" + (Stamp(t) + ".log")
  }

  lemma {:induction false} LexLessIrreflexive(a: string)
    ensures !LexLess(a, a)
    decreases |a|
  {
    if |a| > 0 {
      LexLessIrreflexive(a[1..]);
    }
  }

  /** Strings of one length compare first, what follows breaks ties. */
  lemma {:induction false} LexLessConcat(x1: string, y1: string, x2: string, y2: string)
    requires |x1| == |x2|
    ensures LexLess(x1 + y1, x2 + y2) <==> LexLess(x1, x2) || (x1 == x2 && LexLess(y1, y2))
    ensures x1 + y1 == x2 + y2 <==> x1 == x2 && y1 == y2
    decreases |x1|
  {
    if x1 + y1 == x2 + y2 {
      assert x1 == (x1 + y1)[..|x1|] && x2 == (x2 + y2)[..|x2|];
      assert y1 == (x1 + y1)[|x1|..] && y2 == (x2 + y2)[|x2|..];
    }
    if |x1| == 0 {
      assert x1 + y1 == y1 && x2 + y2 == y2;
    } else {
      assert (x1 + y1)[1..] == x1[1..] + y1 && (x2 + y2)[1..] == x2[1..] + y2;
      LexLessConcat(x1[1..], y1, x2[1..], y2);
      if x1[0] == x2[0] && x1[1..] == x2[1..] {
        assert x1 == x2;
      }
    }
  }

  /** Zero-padded numbers of one width sort as the numbers do. */
  lemma {:induction false} PadOrder(a: nat, b: nat, width: nat)
    requires a < Pow10(width) && b < Pow10(width)
    ensures LexLess(Pad(a, width), Pad(b, width)) <==> a < b
    ensures Pad(a, width) == Pad(b, width) <==> a == b
    decreases width
  {
    if width > 0 {
      PadOrder(a / 10, b / 10, width - 1);
      var da, db := DigitChar(a % 10), DigitChar(b % 10);
      LexLessConcat(Pad(a / 10, width - 1), [da], Pad(b / 10, width - 1), [db]);
      assert LexLess([da], [db]) <==> da < db by {
        assert [da][1..] == [] && [db][1..] == [];
        LexLessIrreflexive([]);
      }
    }
  }

  /** One fixed-width field of a file name: the names compare by the field
      first, then by the rest. */
  lemma FieldOrder(m: nat, n: nat, width: nat, r1: string, r2: string)
    requires m < Pow10(width) && n < Pow10(width)
    ensures LexLess(Pad(m, width) + r1, Pad(n, width) + r2) <==> m < n || (m == n && LexLess(r1, r2))
    ensures Pad(m, width) + r1 == Pad(n, width) + r2 <==> m == n && r1 == r2
  {
    PadOrder(m, n, width);
    LexLessConcat(Pad(m, width), r1, Pad(n, width), r2);
  }

  /** Equal leading text leaves the order to what follows. */
  lemma SameHead(head: string, r1: string, r2: string)
    ensures LexLess(head + r1, head + r2) <==> LexLess(r1, r2)
    ensures head + r1 == head + r2 <==> r1 == r2
  {
    LexLessIrreflexive(head);
    LexLessConcat(head, r1, head, r2);
  }

  /** Time stamps sort as the times they stand for. */
  lemma StampOrder(a: Timestamp, b: Timestamp)
    requires ValidTimestamp(a) && ValidTimestamp(b)
    ensures LexLess(Stamp(a), Stamp(b)) <==> Before(a, b)
    ensures Stamp(a) == Stamp(b) <==> a == b
  {
    var minuteA, minuteB := Pad(a.minute, 2) + Pad(a.second, 2), Pad(b.minute, 2) + Pad(b.second, 2);
    var hourA, hourB := Pad(a.hour, 2) + minuteA, Pad(b.hour, 2) + minuteB;
    var dayA, dayB := Pad(a.day, 2) + ("_" + hourA), Pad(b.day, 2) + ("_" + hourB);
    var monthA, monthB := Pad(a.month, 2) + dayA, Pad(b.month, 2) + dayB;
    assert Pow10(2) == 100 && Pow10(4) == 10000;
    FieldOrder(a.second, b.second, 2, "", "");
    assert Pad(a.second, 2) + "" == Pad(a.second, 2) && Pad(b.second, 2) + "" == Pad(b.second, 2);
    LexLessIrreflexive("");
    FieldOrder(a.minute, b.minute, 2, Pad(a.second, 2), Pad(b.second, 2));
    FieldOrder(a.hour, b.hour, 2, minuteA, minuteB);
    SameHead("_", hourA, hourB);
    FieldOrder(a.day, b.day, 2, "_" + hourA, "_" + hourB);
    FieldOrder(a.month, b.month, 2, dayA, dayB);
    FieldOrder(a.year, b.year, 4, monthA, monthB);
  }

  /** Log file names sort in the order the files were opened, which is
      what lets the sorted listing put the oldest logs first. */
  lemma LogFileNameOrder(a: Timestamp, b: Timestamp)
    requires ValidTimestamp(a) && ValidTimestamp(b)
    ensures LexLess(LogFileName(a), LogFileName(b)) <==> Before(a, b)
    ensures LogFileName(a) == LogFileName(b) <==> a == b
  {
    StampOrder(a, b);
    LexLessIrreflexive(".log");
    LexLessConcat(Stamp(a), ".log", Stamp(b), ".log");
    SameHead("celbridge_host_", Stamp(a) + ".log", Stamp(b) + ".log");
  }
}
