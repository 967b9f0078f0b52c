/**
 * The application logger (includes/lib/Logger.php): the level filter, the
 * redaction of secrets from the context, the line format, and the append to
 * the log file with its fall-back to error_log.
 *
 * The log file and error_log are the fields of a LogSink; the clock, the
 * JSON encoder and whether the file can be written are arguments.
 */
module Logger {
  import opened Wrappers
  import opened Text

  // ---------------------------------------------------------------------------
  // Levels
  // ---------------------------------------------------------------------------

  /** LEVEL_PRIORITY[level] ?? LEVEL_PRIORITY['INFO'] */
  function Priority(level: string): (p: nat)
    ensures 1 <= p <= 4
    ensures level != "DEBUG" && level != "WARN" && level != "ERROR" ==> p == 2
  {
    if level == "DEBUG" then 1
    else if level == "INFO" then 2
    else if level == "WARN" then 3
    else if level == "ERROR" then 4
    else 2
  }

  /** APP_LOG_LEVEL and APP_LOG_PATH, each absent when not defined. */
  datatype Config = Config(level: Option<string>, path: Option<string>)

  /** A message is written unless its priority is below the configured one (INFO when not configured). */
  predicate Emits(config: Config, level: string) {
    Priority(level) >= Priority(config.level.GetOr("INFO"))
  }

  /** DEBUG < INFO < WARN < ERROR, and an unknown name counts as INFO. */
  lemma LevelsOrdered()
    ensures Priority("DEBUG") < Priority("INFO") < Priority("WARN") < Priority("ERROR")
    ensures forall l :: l != "DEBUG" && l != "INFO" && l != "WARN" && l != "ERROR" ==> Priority(l) == Priority("INFO")
  {
  }

  /** Errors are always written; debug messages exactly when the configured level is DEBUG. */
  lemma ErrorsAlwaysDebugOnlyOnRequest(config: Config)
    ensures Emits(config, "ERROR")
    ensures Emits(config, "DEBUG") <==> config.level == Some("DEBUG")
  {
  }

  /** Raising a message's level never suppresses it. */
  lemma EmitsUpward(config: Config, level: string, higher: string)
    requires Emits(config, level) && Priority(level) <= Priority(higher)
    ensures Emits(config, higher)
  {
  }

  // ---------------------------------------------------------------------------
  // The context and sanitizeContext
  // ---------------------------------------------------------------------------

  /** A context value: a PHP scalar, null, or an array of keyed entries. */
  datatype Value = Null | Bool(b: bool) | Int(i: int) | Str(s: string) | Arr(entries: seq<Entry>)
  datatype Entry = Entry(key: string, value: Value)

  /** PHP's empty(): null, false, 0, '', '0' and the empty array. */
  predicate PhpEmptyValue(v: Value) {
    match v
    case Null => true
    case Bool(b) => !b
    case Int(i) => i == 0
    case Str(s) => PhpEmpty(s)
    case Arr(es) => |es| == 0
  }

  const SensitiveKeys: seq<string> := ["password", "passwd", "pwd", "token", "secret", "api_key", "apikey"]
  const Redacted: string := "[REDACTED]"

  /** A key is sensitive when its lower-cased form contains one of the sensitive words. */
  predicate IsSensitive(key: string) {
    exists j :: 0 <= j < |SensitiveKeys| && Contains(Lower(key), SensitiveKeys[j])
  }

  /** The inner foreach over the sensitive words, which breaks at the first hit. */
  method IsSensitiveKey(key: string) returns (sensitive: bool)
    ensures sensitive == IsSensitive(key)
  {
    var lowerKey := Lower(key);
    sensitive := false;
    var j := 0;
    while j < |SensitiveKeys|
      invariant 0 <= j <= |SensitiveKeys|
      invariant forall k :: 0 <= k < j ==> !Contains(lowerKey, SensitiveKeys[k])
    {
      if Contains(lowerKey, SensitiveKeys[j]) {
        sensitive := true;
        break;
      }
      j := j + 1;
    }
  }

  /**
   * The entries as the foreach rebuilds them: a sensitive key keeps its place
   * with '[REDACTED]' as value, a non-sensitive array is sanitized in turn,
   * and every other value is copied.
   */
  function SanitizedEntries(es: seq<Entry>): (r: seq<Entry>)
    ensures |r| == |es|
    ensures forall i :: 0 <= i < |es| ==> r[i].key == es[i].key
    ensures forall i :: 0 <= i < |es| && IsSensitive(es[i].key) ==> r[i].value == Str(Redacted)
    ensures forall i :: 0 <= i < |es| && !IsSensitive(es[i].key) && !es[i].value.Arr? ==> r[i] == es[i]
    ensures forall i :: 0 <= i < |es| && !IsSensitive(es[i].key) && es[i].value.Arr? ==>
      r[i].value.Arr? && |r[i].value.entries| == |es[i].value.entries|
    decreases es
  {
    if |es| == 0 then []
    else
      var e := es[|es| - 1];
      var last :=
        if IsSensitive(e.key) then Entry(e.key, Str(Redacted))
        else if e.value.Arr? && |e.value.entries| > 0 then Entry(e.key, Arr(SanitizedEntries(e.value.entries)))
        else e;
      SanitizedEntries(es[..|es| - 1]) + [last]
  }

  /** sanitizeContext: an empty or non-array context is returned as it is. */
  function Sanitized(v: Value): (r: Value)
    ensures PhpEmptyValue(v) || !v.Arr? ==> r == v
  {
    if PhpEmptyValue(v) || !v.Arr? then v else Arr(SanitizedEntries(v.entries))
  }

  /** Each entry of a sanitized array is its key with the sanitized value, or '[REDACTED]'. */
  lemma SanitizedEntry(es: seq<Entry>, i: nat)
    requires i < |es|
    ensures SanitizedEntries(es)[i] ==
      if IsSensitive(es[i].key) then Entry(es[i].key, Str(Redacted))
      else Entry(es[i].key, Sanitized(es[i].value))
  {
    var e := es[i];
    if !IsSensitive(e.key) && e.value.Arr? {
      SanitizedLastOrFront(es, i);
    }
  }

  lemma {:induction false} SanitizedLastOrFront(es: seq<Entry>, i: nat)
    requires i < |es| && !IsSensitive(es[i].key) && es[i].value.Arr?
    ensures SanitizedEntries(es)[i].value == Sanitized(es[i].value)
    decreases |es|
  {
    if i < |es| - 1 {
      SanitizedLastOrFront(es[..|es| - 1], i);
    }
  }

  /** No sensitive key, at any depth, holds anything but '[REDACTED]'. */
  predicate CleanEntries(es: seq<Entry>)
    decreases es
  {
    forall i :: 0 <= i < |es| ==>
      if IsSensitive(es[i].key) then es[i].value == Str(Redacted)
      else (es[i].value.Arr? ==> CleanEntries(es[i].value.entries))
  }

  predicate Clean(v: Value) {
    v.Arr? ==> CleanEntries(v.entries)
  }

  /** The sanitized context never carries a secret, however deep. */
  lemma {:induction false} SanitizedIsClean(v: Value)
    ensures Clean(Sanitized(v))
    decreases v
  {
    if !PhpEmptyValue(v) && v.Arr? {
      var es := v.entries;
      var r := SanitizedEntries(es);
      forall i | 0 <= i < |r|
        ensures if IsSensitive(r[i].key) then r[i].value == Str(Redacted)
                else (r[i].value.Arr? ==> CleanEntries(r[i].value.entries))
      {
        SanitizedEntry(es, i);
        if !IsSensitive(r[i].key) && r[i].value.Arr? {
          assert es[i] in es;
          SanitizedIsClean(es[i].value);
        }
      }
    }
  }

  /** Sanitizing twice changes nothing more. */
  lemma {:induction false} SanitizedIdempotent(v: Value)
    ensures Sanitized(Sanitized(v)) == Sanitized(v)
    decreases v
  {
    if !PhpEmptyValue(v) && v.Arr? {
      var es := v.entries;
      var r := SanitizedEntries(es);
      var rr := SanitizedEntries(r);
      forall i | 0 <= i < |r|
        ensures rr[i] == r[i]
      {
        SanitizedEntry(es, i);
        SanitizedEntry(r, i);
        if !IsSensitive(es[i].key) {
          assert es[i] in es;
          SanitizedIdempotent(es[i].value);
        }
      }
    }
  }

  /** sanitizeContext as written: the foreach builds $sanitized entry by entry, recursing into arrays. */
  method SanitizeContext(context: Value) returns (r: Value)
    ensures r == Sanitized(context)
    decreases context
  {
    if PhpEmptyValue(context) || !context.Arr? {
      return context;
    }
    var es := context.entries;
    var sanitized: seq<Entry> := [];
    var i := 0;
    while i < |es|
      invariant 0 <= i <= |es|
      invariant |sanitized| == i
      invariant forall k :: 0 <= k < i ==> sanitized[k] == SanitizedEntries(es)[k]
    {
      var e := es[i];
      SanitizedEntry(es, i);
      var isSensitive := IsSensitiveKey(e.key);
      if isSensitive {
        sanitized := sanitized + [Entry(e.key, Str(Redacted))];
      } else if e.value.Arr? {
        assert e in es;
        var inner := SanitizeContext(e.value);
        sanitized := sanitized + [Entry(e.key, inner)];
      } else {
        sanitized := sanitized + [e];
      }
      i := i + 1;
    }
    return Arr(sanitized);
  }

  // ---------------------------------------------------------------------------
  // The log line and the sinks
  // ---------------------------------------------------------------------------

  /** "[dns3][LEVEL][module]" */
  function Prefix(level: string, moduleName: string): string {
    "[dns3][" + level + "][" + moduleName + "]"
  }

  /** " <json>" when the sanitized context is non-empty and encodes; '' otherwise. */
  function ContextSuffix(context: Value, json: Value -> Option<string>): string {
    var s := Sanitized(context);
    if !PhpEmptyValue(s) && json(s).Some? then " " + json(s).value else ""
  }

  /** "<timestamp> [dns3][LEVEL][module] message" followed by the context suffix. */
  function FormatLine(timestamp: string, level: string, moduleName: string, message: string,
                      context: Value, json: Value -> Option<string>): string {
    timestamp + " " + Prefix(level, moduleName) + " " + message + ContextSuffix(context, json)
  }

  /**
   * Only the sanitized context reaches the encoder; without a context the
   * line ends with the message, and with one it ends with a space and the
   * encoding of the sanitized context.
   */
  lemma LineShape(timestamp: string, level: string, moduleName: string, message: string,
                  context: Value, json: Value -> Option<string>)
    ensures var line := FormatLine(timestamp, level, moduleName, message, context, json);
      var head := timestamp + " " + Prefix(level, moduleName) + " " + message;
      StartsWith(line, head)
      && (line == head <==> PhpEmptyValue(Sanitized(context)) || json(Sanitized(context)).None?)
      && (line != head ==> line == head + " " + json(Sanitized(context)).value)
  {
    var line := FormatLine(timestamp, level, moduleName, message, context, json);
    var head := timestamp + " " + Prefix(level, moduleName) + " " + message;
    assert line[..|head|] == head;
  }

  /** The context is empty after sanitizing exactly when it was empty before. */
  lemma SanitizedEmptyIff(context: Value)
    ensures PhpEmptyValue(Sanitized(context)) <==> PhpEmptyValue(context)
  {
  }

  /** writeToFile's rule: one '\n' is added when the message does not already end with one. */
  function WithNewline(message: string): (r: string)
    ensures |r| > 0 && r[|r| - 1] == '\n'
    ensures r == message <==> |message| > 0 && message[|message| - 1] == '\n'
    ensures r != message ==> r == message + "\n"
  {
    if |message| > 0 && message[|message| - 1] == '\n' then message else message + "\n"
  }

  lemma WithNewlineIdempotent(message: string)
    ensures WithNewline(WithNewline(message)) == WithNewline(message)
  {
  }

  /** A log path is used only when it is a non-empty string PHP counts as true ('0' is false). */
  predicate UsesFile(config: Config) {
    config.path.Some? && !PhpEmpty(config.path.value)
  }

  /** The contents of the log files and the lines handed to error_log. */
  datatype Sinks = Sinks(files: map<string, string>, errorLog: seq<string>)

  function FileContents(files: map<string, string>, path: string): string {
    if path in files then files[path] else ""
  }

  function FailureNotice(path: string, message: string): string {
    "Logger: Failed to write to log file '" + path + "'. Message: " + message
  }

  /** writeToFile: append the line with its newline, or tell error_log when the file cannot be written. */
  function WrittenToFile(sinks: Sinks, path: string, line: string, writable: string -> bool): Sinks {
    var message := WithNewline(line);
    if writable(path) then sinks.(files := sinks.files[path := FileContents(sinks.files, path) + message])
    else sinks.(errorLog := sinks.errorLog + [FailureNotice(path, message)])
  }

  /** log: the filter, the line, and its destination. */
  function AfterLog(sinks: Sinks, config: Config, level: string, moduleName: string, message: string, context: Value,
                    timestamp: string, json: Value -> Option<string>, writable: string -> bool): Sinks {
    if !Emits(config, level) then sinks
    else
      var line := FormatLine(timestamp, level, moduleName, message, context, json);
      if UsesFile(config) then WrittenToFile(sinks, config.path.value, line, writable)
      else sinks.(errorLog := sinks.errorLog + [line])
  }

  /** A message leaves a trace (a file line or an error_log line) exactly when the level filter lets it through. */
  lemma LogTraceIff(sinks: Sinks, config: Config, level: string, moduleName: string, message: string, context: Value,
                    timestamp: string, json: Value -> Option<string>, writable: string -> bool)
    ensures AfterLog(sinks, config, level, moduleName, message, context, timestamp, json, writable) == sinks
      <==> !Emits(config, level)
  {
    if Emits(config, level) {
      var after := AfterLog(sinks, config, level, moduleName, message, context, timestamp, json, writable);
      var line := FormatLine(timestamp, level, moduleName, message, context, json);
      if UsesFile(config) && writable(config.path.value) {
        var p := config.path.value;
        assert |after.files[p]| > |FileContents(sinks.files, p)|;
        assert after.files != sinks.files;
      } else {
        assert |after.errorLog| == |sinks.errorLog| + 1;
      }
    }
  }

  /** A log file only ever grows at the configured path, keeps what it held before and ends with a newline. */
  lemma LogAppendsToFile(sinks: Sinks, config: Config, level: string, moduleName: string, message: string,
                         context: Value, timestamp: string, json: Value -> Option<string>, writable: string -> bool)
    ensures var after := AfterLog(sinks, config, level, moduleName, message, context, timestamp, json, writable);
      after.files != sinks.files ==> var p := config.path.value;
        UsesFile(config) && writable(p) && after.files == sinks.files[p := after.files[p]]
        && StartsWith(after.files[p], FileContents(sinks.files, p))
        && after.files[p][|after.files[p]| - 1] == '\n'
  {
    if Emits(config, level) && UsesFile(config) && writable(config.path.value) {
      var after := AfterLog(sinks, config, level, moduleName, message, context, timestamp, json, writable);
      var p := config.path.value;
      var old_ := FileContents(sinks.files, p);
      var m := WithNewline(FormatLine(timestamp, level, moduleName, message, context, json));
      assert after.files[p] == old_ + m;
      assert (old_ + m)[..|old_|] == old_;
    }
  }

  /** A path of '0' is false to PHP, so the line goes to error_log instead. */
  lemma ZeroPathFallsBack(sinks: Sinks, level: string, moduleName: string, message: string, context: Value,
                          timestamp: string, json: Value -> Option<string>, writable: string -> bool)
    requires Emits(Config(None, Some("0")), level)
    ensures AfterLog(sinks, Config(None, Some("0")), level, moduleName, message, context, timestamp, json, writable)
      == sinks.(errorLog := sinks.errorLog + [FormatLine(timestamp, level, moduleName, message, context, json)])
  {
  }

  class LogSink {
    var files: map<string, string>
    var errorLog: seq<string>

    constructor()
      ensures files == map[] && errorLog == []
    {
      files := map[];
      errorLog := [];
    }

    function State(): Sinks
      reads this
    {
      Sinks(files, errorLog)
    }

    method WriteToFile(path: string, line: string, writable: string -> bool)
      modifies this
      ensures State() == WrittenToFile(old(State()), path, line, writable)
    {
      var message := line;
      if |message| == 0 || message[|message| - 1] != '\n' {
        message := message + "\n";
      }
      if writable(path) {
        files := files[path := FileContents(files, path) + message];
      } else {
        errorLog := errorLog + [FailureNotice(path, message)];
      }
    }

    method Log(config: Config, level: string, moduleName: string, message: string, context: Value,
               timestamp: string, json: Value -> Option<string>, writable: string -> bool)
      modifies this
      ensures State() == AfterLog(old(State()), config, level, moduleName, message, context, timestamp, json, writable)
    {
      var configLevel := config.level.GetOr("INFO");
      if Priority(level) < Priority(configLevel) {
        return;
      }
      var sanitizedContext := SanitizeContext(context);
      var contextStr := "";
      if !PhpEmptyValue(sanitizedContext) {
        var contextJson := json(sanitizedContext);
        if contextJson.Some? {
          contextStr := " " + contextJson.value;
        }
      }
      var logMessage := timestamp + " " + Prefix(level, moduleName) + " " + message + contextStr;
      if UsesFile(config) {
        WriteToFile(config.path.value, logMessage, writable);
      } else {
        errorLog := errorLog + [logMessage];
      }
    }
  }
}
