/**
 * Reading the per-file `git log` output of gitlog2premis_sample.py. Each log
 * line has the shape `%H || %an || %ae || %ad || %s`; it is split on `||`,
 * every field is stripped, the first field (the commit hash) becomes the key
 * and the remaining fields `[name, email, date, subject]` the value.
 */
module GitLog {
  import opened Wrappers
  import opened Strings

  const LineSeparator := "\n"
  const FieldSeparator := "||"

  /** The lines of one file's log output, `file_result.split("\n")`. */
  function LogLines(fileResult: string): (r: seq<string>)
    ensures |r| == Count(fileResult, LineSeparator) + 1
  {
    SplitCount(fileResult, LineSeparator);
    Split(fileResult, LineSeparator)
  }

  /**
   * The stripped fields of one log line: one more field than the line has
   * `||` separators, each the stripped text between two separators.
   */
  function ParseFields(line: string): (r: seq<string>)
    ensures |r| == Count(line, FieldSeparator) + 1 == |Split(line, FieldSeparator)|
    ensures forall i :: 0 <= i < |r| ==> r[i] == Strip(Split(line, FieldSeparator)[i])
  {
    var parts := Split(line, FieldSeparator);
    SplitCount(line, FieldSeparator);
    seq(|parts|, i requires 0 <= i < |parts| => Strip(parts[i]))
  }

  /** One parsed log line: the hash popped off the field list and the fields left after it. */
  datatype LogEntry = LogEntry(hash: string, details: seq<string>)

  /** `commit_details.pop(0)`: the first field becomes the key, the rest stay in order. */
  function ParseLine(line: string): (e: LogEntry)
    ensures |e.details| == Count(line, FieldSeparator)
  {
    var fields := ParseFields(line);
    LogEntry(fields[0], fields[1..])
  }

  /**
   * The key is the first stripped field and the value the remaining stripped
   * fields in order (`[name, email, date, subject]` for a line of the `||` format).
   */
  lemma ParseLineFields(line: string)
    ensures var parts := Split(line, FieldSeparator);
      ParseLine(line).hash == Strip(parts[0]) &&
      |ParseLine(line).details| == |parts| - 1 &&
      forall j :: 0 <= j < |parts| - 1 ==> ParseLine(line).details[j] == Strip(parts[j + 1])
  {
    var parts := Split(line, FieldSeparator);
    var fields := ParseFields(line);
    var e := ParseLine(line);
    assert e == LogEntry(fields[0], fields[1..]);
    forall j | 0 <= j < |parts| - 1 ensures e.details[j] == Strip(parts[j + 1]) {
      assert e.details[j] == fields[j + 1];
    }
  }

  /**
   * What the `--pretty=format:%H || %an || %ae || %ad || %s` option writes
   * between two fields.
   */
  const FormatSeparator := " || "

  /** One log line as the format option writes it from its fields. */
  function FormatLine(fields: seq<string>): string
  {
    Join(fields, FormatSeparator)
  }

  /** A field that survives the parse: it holds no `||` and neither starts nor ends with whitespace. */
  predicate PlainField(x: string)
  {
    !Contains(x, FieldSeparator) && (x == [] || (!IsSpace(x[0]) && !IsSpace(x[|x| - 1])))
  }

  /** One more field in front adds it and one written separator. */
  lemma FormatLineCons(x: string, rest: seq<string>)
    requires rest != []
    ensures FormatLine([x] + rest) == x + FormatSeparator + FormatLine(rest)
  {
    assert ([x] + rest)[1..] == rest;
  }

  /** No `||` starts inside a separator-free piece that ends in a space, whatever follows it. */
  lemma NoSeparatorInFront(a: string, r: string)
    requires !Contains(a, FieldSeparator) && a != [] && a[|a| - 1] == ' '
    ensures forall j :: 0 <= j < |a| ==> !OccursAt(a + r, FieldSeparator, j)
  {
    NotContains(a, FieldSeparator);
    forall j | 0 <= j < |a| ensures !OccursAt(a + r, FieldSeparator, j) {
      if j + 2 <= |a| {
        assert (a + r)[j..j + 2] == a[j..j + 2];
        assert !OccursAt(a, FieldSeparator, j);
      } else if j + 2 <= |a + r| {
        assert (a + r)[j..j + 2][0] == a[j] == ' ' != FieldSeparator[0];
      }
    }
  }

  /** In `x || rest` the first `||` is the written one, just after `x` and its space. */
  lemma FirstSeparator(x: string, r: string)
    requires !Contains(x, FieldSeparator)
    ensures IndexOf((x + " ") + (FieldSeparator + r), FieldSeparator) == Some(|x| + 1)
  {
    var a := x + " ";
    FieldThenSpace(x);
    NoSeparatorInFront(a, FieldSeparator + r);
    FirstOccurrenceAfter(a, FieldSeparator, r);
  }

  /** A space after a separator-free piece creates no separator. */
  lemma FieldThenSpace(x: string)
    requires !Contains(x, FieldSeparator)
    ensures !Contains(x + " ", FieldSeparator)
  {
    PaddedFree("", x, " ", FieldSeparator);
    assert "" + x + " " == x + " ";
  }

  /** The first `||` of `x || rest` is the written one, so the first piece is `x` and its space. */
  lemma SplitAfterField(x: string, rest: string)
    requires !Contains(x, FieldSeparator)
    ensures Split(x + FormatSeparator + rest, FieldSeparator) == [x + " "] + Split(" " + rest, FieldSeparator)
  {
    var a, r := x + " ", " " + rest;
    assert x + FormatSeparator + rest == a + (FieldSeparator + r);
    FirstSeparator(x, r);
    SplitFirstPiece(a, FieldSeparator, r);
  }

  /** Every piece strips to the field at its position. */
  ghost predicate StripsTo(parts: seq<string>, fields: seq<string>)
  {
    |parts| == |fields| && forall i :: 0 <= i < |fields| ==> Strip(parts[i]) == fields[i]
  }

  /** A line of one field is one piece, which strips back to the field. */
  lemma SplitFormattedOne(q: string, x: string)
    requires AllSpace(q) && PlainField(x)
    ensures StripsTo(Split(q + x, FieldSeparator), [x])
  {
    PaddedFree(q, x, "", FieldSeparator);
    assert q + x + "" == q + x;
    SplitWhole(q + x, FieldSeparator);
    StripAround(q, x, "");
  }

  /** A field in front of a line whose pieces strip to `fields` adds one piece that strips to it. */
  lemma SplitFormattedStep(q: string, x: string, fields: seq<string>)
    requires AllSpace(q) && PlainField(x) && fields != []
    requires StripsTo(Split(" " + FormatLine(fields), FieldSeparator), fields)
    ensures StripsTo(Split(q + FormatLine([x] + fields), FieldSeparator), [x] + fields)
  {
    SplitFrontField(q, x, fields);
    StripAround(q, x, " ");
    StripsToCons(q + x + " ", Split(" " + FormatLine(fields), FieldSeparator), x, fields);
  }

  /** The field in front, with the whitespace around it, is the first piece of the split. */
  lemma SplitFrontField(q: string, x: string, fields: seq<string>)
    requires AllSpace(q) && PlainField(x) && fields != []
    ensures Split(q + FormatLine([x] + fields), FieldSeparator) ==
      [q + x + " "] + Split(" " + FormatLine(fields), FieldSeparator)
  {
    var rest := FormatLine(fields);
    FormatLineCons(x, fields);
    PaddedFree(q, x, "", FieldSeparator);
    assert q + x + "" == q + x;
    assert q + FormatLine([x] + fields) == (q + x) + FormatSeparator + rest;
    SplitAfterField(q + x, rest);
  }

  lemma StripsToCons(y: string, parts: seq<string>, x: string, fields: seq<string>)
    requires Strip(y) == x && StripsTo(parts, fields)
    ensures StripsTo([y] + parts, [x] + fields)
  {
    assert forall i :: 0 < i <= |fields| ==> ([y] + parts)[i] == parts[i - 1] && ([x] + fields)[i] == fields[i - 1];
  }

  /**
   * Splitting a written line, after any leading whitespace `q`, gives one
   * piece per field, and each piece strips back to its field.
   */
  lemma {:induction false} SplitFormatted(q: string, fields: seq<string>)
    requires AllSpace(q) && |fields| > 0
    requires forall i :: 0 <= i < |fields| ==> PlainField(fields[i])
    ensures StripsTo(Split(q + FormatLine(fields), FieldSeparator), fields)
    decreases |fields|
  {
    if |fields| == 1 {
      assert fields == [fields[0]];
      SplitFormattedOne(q, fields[0]);
    } else {
      SplitFormatted(" ", fields[1..]);
      SplitFormattedStep(q, fields[0], fields[1..]);
      assert [fields[0]] + fields[1..] == fields;
    }
  }

  /** Parsing a written line gives back exactly the fields it was written from. */
  lemma FieldsRoundTrip(fields: seq<string>)
    requires |fields| > 0
    requires forall i :: 0 <= i < |fields| ==> PlainField(fields[i])
    ensures ParseFields(FormatLine(fields)) == fields
  {
    SplitFormatted("", fields);
    assert "" + FormatLine(fields) == FormatLine(fields);
  }

  /** The five fields of one commit are written as `%H || %an || %ae || %ad || %s`. */
  lemma FormatCommit(hash: string, name: string, email: string, date: string, subject: string)
    ensures FormatLine([hash, name, email, date, subject]) ==
      hash + " || " + name + " || " + email + " || " + date + " || " + subject
  {
    assert [hash, name, email, date, subject] == [hash] + ([name] + ([email] + ([date] + [subject])));
    FormatLineCons(date, [subject]);
    FormatLineCons(email, [date] + [subject]);
    FormatLineCons(name, [email] + ([date] + [subject]));
    FormatLineCons(hash, [name] + ([email] + ([date] + [subject])));
  }

  /**
   * A line `%H || %an || %ae || %ad || %s` is stored under its hash as
   * `[name, email, date, subject]`: `l[1]` is the author's address and
   * `l[0]` the author's name.
   */
  lemma LineRoundTrip(hash: string, name: string, email: string, date: string, subject: string)
    requires PlainField(hash) && PlainField(name) && PlainField(email) && PlainField(date) && PlainField(subject)
    ensures ParseLine(hash + " || " + name + " || " + email + " || " + date + " || " + subject) ==
      LogEntry(hash, [name, email, date, subject])
  {
    var fields := [hash, name, email, date, subject];
    FormatCommit(hash, name, email, date, subject);
    FieldsRoundTrip(fields);
    assert fields[1..] == [name, email, date, subject];
  }

  /** The parsed lines of one file's log, in log order. */
  function Entries(lines: seq<string>): (r: seq<LogEntry>)
    ensures |r| == |lines|
  {
    seq(|lines|, i requires 0 <= i < |lines| => ParseLine(lines[i]))
  }

  /** The history table after the entries have been stored one after the other (`file_history[commit_hash] = commit_details`). */
  function History(entries: seq<LogEntry>): map<string, seq<string>>
    decreases |entries|
  {
    if entries == [] then map[]
    else History(entries[..|entries| - 1])[entries[|entries| - 1].hash := entries[|entries| - 1].details]
  }

  /** The history is keyed by exactly the commit hashes found in the log. */
  lemma {:induction false} HistoryKeys(entries: seq<LogEntry>)
    ensures History(entries).Keys == set i | 0 <= i < |entries| :: entries[i].hash
    decreases |entries|
  {
    if entries != [] {
      var n := |entries| - 1;
      HistoryKeys(entries[..n]);
      var before := set i | 0 <= i < n :: entries[..n][i].hash;
      assert before == set i | 0 <= i < n :: entries[i].hash;
      assert (set i | 0 <= i < |entries| :: entries[i].hash) == before + {entries[n].hash};
    }
  }

  /** An entry whose hash does not come back later in the log is the one whose fields the history keeps. */
  lemma {:induction false} HistoryLastWins(entries: seq<LogEntry>, i: nat)
    requires i < |entries|
    requires forall j :: i < j < |entries| ==> entries[j].hash != entries[i].hash
    ensures entries[i].hash in History(entries)
    ensures History(entries)[entries[i].hash] == entries[i].details
    decreases |entries|
  {
    var n := |entries| - 1;
    if i < n {
      HistoryLastWins(entries[..n], i);
    }
  }

  /** Every stored value comes from the last entry that carries its key. */
  lemma {:induction false} HistoryValueSource(entries: seq<LogEntry>, k: string)
    requires k in History(entries)
    ensures exists i :: 0 <= i < |entries| && entries[i].hash == k && History(entries)[k] == entries[i].details &&
                 forall j :: i < j < |entries| ==> entries[j].hash != k
    decreases |entries|
  {
    var n := |entries| - 1;
    if entries[n].hash == k {
      assert entries[n].hash == k && History(entries)[k] == entries[n].details;
    } else {
      HistoryValueSource(entries[..n], k);
      var i :| 0 <= i < n && entries[..n][i].hash == k && History(entries[..n])[k] == entries[..n][i].details &&
        forall j :: i < j < n ==> entries[..n][j].hash != k;
      assert entries[..n][i] == entries[i];
      forall j | i < j < |entries| ensures entries[j].hash != k {
        if j < n { assert entries[..n][j] == entries[j]; }
      }
    }
  }

  /** A file yields as many history entries as its log has distinct commit hashes. */
  lemma HistorySize(entries: seq<LogEntry>)
    ensures |History(entries)| == |set i | 0 <= i < |entries| :: entries[i].hash|
  {
    HistoryKeys(entries);
  }

  /**
   * An empty log is one empty line, whose single field is popped as the hash:
   * the history holds the key `""` with no fields at all.
   */
  lemma EmptyLogHistory()
    ensures FileHistory("") == map["" := []]
  {
    assert Split("", LineSeparator) == [""];
    assert Split("", FieldSeparator) == [""];
    assert Strip("") == "";
    assert ParseFields("") == [""];
    assert Entries(LogLines("")) == [LogEntry("", [])];
  }

  /** The history of one file, computed from its raw log output. */
  function FileHistory(fileResult: string): map<string, seq<string>>
  {
    History(Entries(LogLines(fileResult)))
  }

  /** The loop over one file's log lines (`for commit in file_result_list`). */
  method ParseFileLog(fileResult: string) returns (fileHistory: map<string, seq<string>>)
    ensures fileHistory == FileHistory(fileResult)
  {
    var fileResultList := LogLines(fileResult);
    ghost var entries := Entries(fileResultList);
    fileHistory := map[];
    for i := 0 to |fileResultList|
      invariant fileHistory == History(entries[..i])
    {
      var commitDetails := ParseFields(fileResultList[i]);
      var commitHash := commitDetails[0];
      commitDetails := commitDetails[1..];
      assert entries[..i + 1][..i] == entries[..i];
      assert entries[i] == LogEntry(commitHash, commitDetails);
      fileHistory := fileHistory[commitHash := commitDetails];
    }
    assert entries[..|fileResultList|] == entries;
  }

  /** `repo_history`: each tracked path mapped to the history of its own log. */
  function RepoHistory(files: seq<string>, gitLog: string -> string): map<string, map<string, seq<string>>>
  {
    map f | f in files :: FileHistory(gitLog(f))
  }

  /** Reading one more path adds its history under its name. */
  lemma RepoHistorySnoc(files: seq<string>, gitLog: string -> string, i: nat)
    requires i < |files|
    ensures RepoHistory(files[..i + 1], gitLog) == RepoHistory(files[..i], gitLog)[files[i] := FileHistory(gitLog(files[i]))]
  {
    assert files[..i + 1] == files[..i] + [files[i]];
  }

  /**
   * The loop over the tracked files (`for file in files`); `gitLog` stands for
   * `git log --reverse --date=iso --follow` with the `||` format, asked of one path.
   */
  method BuildRepoHistory(files: seq<string>, gitLog: string -> string) returns (repoHistory: map<string, map<string, seq<string>>>)
    ensures repoHistory.Keys == set f | f in files
    ensures forall f :: f in repoHistory ==> repoHistory[f] == FileHistory(gitLog(f))
    ensures repoHistory == RepoHistory(files, gitLog)
  {
    repoHistory := map[];
    for i := 0 to |files|
      invariant repoHistory == RepoHistory(files[..i], gitLog)
    {
      var fileHistory := ParseFileLog(gitLog(files[i]));
      RepoHistorySnoc(files, gitLog, i);
      repoHistory := repoHistory[files[i] := fileHistory];
    }
    assert files[..|files|] == files;
  }
}
