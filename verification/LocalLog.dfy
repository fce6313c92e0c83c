/** The local log file and its line cache (log_local.c).  The file is the text at the log
    path, or None when there is no such file. */
module LocalLog {
  import opened CStrings
  import opened Event

  const MAX_LINES: nat := 65536
  const READ_BUFFER: nat := 8192

  // --- reading lines --------------------------------------------------------------------

  /** How much one `fgets` takes: through the next newline, at most `max` characters. */
  function ChunkLength(s: string, max: nat): (n: nat)
    ensures n <= |s| && n <= max && (s != "" && max > 0 ==> n > 0)
  {
    if s == "" || max == 0 then 0 else if s[0] == '\n' then 1 else 1 + ChunkLength(s[1..], max - 1)
  }

  /** The chunk as a C string, without its last newline. */
  function Stripped(chunk: string): (r: string)
    ensures NUL !in r && |r| <= |chunk|
  {
    var t := CStr(chunk);
    if t != "" && t[|t| - 1] == '\n' then t[..|t| - 1] else t
  }

  /** The first `limit` lines the read loop stores. */
  function ReadLines(s: string, limit: nat): (r: seq<string>)
    ensures |r| <= limit
  {
    if s == "" || limit == 0 then []
    else
      var n := ChunkLength(s, READ_BUFFER - 1);
      [Stripped(s[..n])] + ReadLines(s[n..], limit - 1)
  }

  /** Cached lines are C strings that fit the read buffer. */
  lemma {:induction false} ReadLinesFit(s: string, limit: nat, i: nat)
    requires i < |ReadLines(s, limit)|
    ensures NUL !in ReadLines(s, limit)[i] && |ReadLines(s, limit)[i]| < READ_BUFFER
  {
    if i > 0 {
      ReadLinesFit(s[ChunkLength(s, READ_BUFFER - 1)..], limit - 1, i - 1);
    }
  }

  lemma FileLinesFit(file: Option<string>, i: nat)
    requires i < |FileLines(file)|
    ensures NUL !in FileLines(file)[i] && |FileLines(file)[i]| < READ_BUFFER
  {
    ReadLinesFit(file.value, MAX_LINES, i);
  }

  function FileLines(file: Option<string>): (r: seq<string>)
    ensures |r| <= MAX_LINES
  {
    match file
    case None => []
    case Some(s) => ReadLines(s, MAX_LINES)
  }

  lemma ReadLinesStep(done: seq<string>, rest: string, limit: nat)
    requires rest != "" && limit > 0
    ensures var n := ChunkLength(rest, READ_BUFFER - 1);
            done + ReadLines(rest, limit) == (done + [Stripped(rest[..n])]) + ReadLines(rest[n..], limit - 1)
  {
    var n := ChunkLength(rest, READ_BUFFER - 1);
    Reassociate(done, [Stripped(rest[..n])], ReadLines(rest[n..], limit - 1));
  }

  /** Lines printed with a newline each. */
  function Written(lines: seq<string>): string
  {
    if lines == [] then "" else lines[0] + "\n" + Written(lines[1..])
  }

  lemma {:induction false} WrittenAppend(lines: seq<string>, last: string)
    ensures Written(lines + [last]) == Written(lines) + (last + "\n")
  {
    if lines == [] {
      assert [last][1..] == [];
    } else {
      assert (lines + [last])[1..] == lines[1..] + [last];
      WrittenAppend(lines[1..], last);
      assert lines[0] + "\n" + (Written(lines[1..]) + (last + "\n")) == Written(lines) + (last + "\n");
    }
  }

  lemma WrittenNothing()
    ensures Written([]) == ""
  {
  }

  predicate LogLine(line: string) { NUL !in line && '\n' !in line && |line| <= READ_BUFFER - 2 }

  lemma {:induction false} ChunkIsLine(line: string, rest: string, max: nat)
    requires '\n' !in line && |line| < max
    ensures ChunkLength(line + "\n" + rest, max) == |line| + 1
  {
    var s := line + "\n" + rest;
    if line != "" {
      assert s[1..] == line[1..] + "\n" + rest;
      ChunkIsLine(line[1..], rest, max - 1);
    }
  }

  lemma StrippedLine(line: string)
    requires NUL !in line && '\n' !in line
    ensures Stripped(line + "\n") == line
  {
    var s := line + "\n";
    assert CStr(s) == s;
  }

  /** Reading back any written lines that fit the buffer gives the first `limit` of them. */
  lemma {:induction false} ReadBack(lines: seq<string>, limit: nat)
    requires forall i | 0 <= i < |lines| :: LogLine(lines[i])
    ensures ReadLines(Written(lines), limit) == if |lines| <= limit then lines else lines[..limit]
  {
    hide Stripped, ChunkLength;
    if lines != [] && limit > 0 {
      var s, rest := Written(lines), Written(lines[1..]);
      ChunkIsLine(lines[0], rest, READ_BUFFER - 1);
      var n := |lines[0]| + 1;
      Parts(lines[0] + "\n", rest);
      StrippedLine(lines[0]);
      ReadBack(lines[1..], limit - 1);
    }
  }

  lemma {:induction false} ChunkIsFull(c: string, rest: string)
    requires '\n' !in c
    ensures ChunkLength(c + rest, |c|) == |c|
  {
    if c != "" {
      DropInFirst(c, rest, 1);
      ChunkIsFull(c[1..], rest);
    }
  }

  /** A line that does not fit the buffer is read in pieces: 8191 characters, then what is left. */
  lemma {:induction false} LongLineInPieces(c: string, rest: string, limit: nat)
    requires |c| == 8191 && NUL !in c && '\n' !in c && limit > 0
    ensures ReadLines(c + rest, limit) == [c] + ReadLines(rest, limit - 1)
  {
    ChunkIsFull(c, rest);
    Parts(c, rest);
    assert CStr(c) == c;
    assert c[8190] in c;
  }

  // --- texts that contain newlines --------------------------------------------------------

  /** The lines a text falls into. */
  function Split(t: string): (r: seq<string>)
    ensures r != []
  {
    if t == "" then [""]
    else
      var rest := Split(t[1..]);
      if t[0] == '\n' then [""] + rest else [[t[0]] + rest[0]] + rest[1..]
  }

  function Pieces(lines: seq<string>): seq<string>
  {
    if lines == [] then [] else Split(lines[0]) + Pieces(lines[1..])
  }

  lemma {:induction false} SplitFits(t: string, i: nat)
    requires i < |Split(t)|
    ensures '\n' !in Split(t)[i] && |Split(t)[i]| <= |t| && (NUL !in t ==> NUL !in Split(t)[i])
  {
    if t != "" {
      var rest := Split(t[1..]);
      if t[0] == '\n' {
        if i > 0 { SplitFits(t[1..], i - 1); }
      } else {
        SplitFits(t[1..], i);
      }
    }
  }

  lemma {:induction false} SplitWhole(t: string)
    requires '\n' !in t
    ensures Split(t) == [t]
  {
    if t != "" {
      SplitWhole(t[1..]);
      assert [t[0]] + t[1..] == t;
    }
  }

  lemma {:induction false} SplitBreaks(t: string)
    requires '\n' in t
    ensures |Split(t)| > 1
  {
    if t[0] != '\n' {
      SplitBreaks(t[1..]);
    }
  }

  lemma {:induction false} WrittenConcat(a: seq<string>, b: seq<string>)
    ensures Written(a + b) == Written(a) + Written(b)
  {
    if a == [] {
      assert a + b == b;
    } else {
      assert (a + b)[1..] == a[1..] + b;
      WrittenConcat(a[1..], b);
      Reassociate(a[0] + "\n", Written(a[1..]), Written(b));
    }
  }

  /** Writing a text and writing its lines is the same. */
  lemma {:induction false} WrittenSplit(t: string)
    ensures Written(Split(t)) == t + "\n"
  {
    if t == "" {
      assert [""][1..] == [];
    } else {
      var rest := Split(t[1..]);
      WrittenSplit(t[1..]);
      if t[0] == '\n' {
        assert ([""] + rest)[1..] == rest;
        assert "" + "\n" + (t[1..] + "\n") == t + "\n";
      } else {
        var r := [[t[0]] + rest[0]] + rest[1..];
        assert r[1..] == rest[1..];
        Reassociate([t[0]], rest[0], "\n");
        Reassociate([t[0]], rest[0] + "\n", Written(rest[1..]));
        assert [t[0]] + (t[1..] + "\n") == t + "\n";
      }
    }
  }

  lemma {:induction false} WrittenPieces(lines: seq<string>)
    ensures Written(Pieces(lines)) == Written(lines)
  {
    if lines != [] {
      WrittenConcat(Split(lines[0]), Pieces(lines[1..]));
      WrittenSplit(lines[0]);
      WrittenPieces(lines[1..]);
    }
  }

  lemma {:induction false} PiecesFit(lines: seq<string>, i: nat)
    requires forall j | 0 <= j < |lines| :: NUL !in lines[j] && |lines[j]| <= READ_BUFFER - 2
    requires i < |Pieces(lines)|
    ensures LogLine(Pieces(lines)[i])
  {
    var n := |Split(lines[0])|;
    if i < n {
      SplitFits(lines[0], i);
    } else {
      PiecesFit(lines[1..], i - n);
    }
  }

  /** What is read back of any texts that fit the buffer: the lines they fall into. */
  lemma {:induction false} ReadBackPieces(lines: seq<string>, limit: nat)
    requires forall j | 0 <= j < |lines| :: NUL !in lines[j] && |lines[j]| <= READ_BUFFER - 2
    ensures ReadLines(Written(lines), limit) ==
            if |Pieces(lines)| <= limit then Pieces(lines) else Pieces(lines)[..limit]
  {
    hide LogLine;
    WrittenPieces(lines);
    forall i | 0 <= i < |Pieces(lines)| ensures LogLine(Pieces(lines)[i]) {
      PiecesFit(lines, i);
    }
    ReadBack(Pieces(lines), limit);
  }

  lemma {:induction false} PiecesWhole(lines: seq<string>)
    requires forall j | 0 <= j < |lines| :: '\n' !in lines[j]
    ensures Pieces(lines) == lines
  {
    if lines != [] {
      SplitWhole(lines[0]);
      PiecesWhole(lines[1..]);
    }
  }

  lemma {:induction false} PiecesConcat(a: seq<string>, b: seq<string>)
    ensures Pieces(a + b) == Pieces(a) + Pieces(b)
  {
    if a == [] {
      assert a + b == b;
    } else {
      assert (a + b)[1..] == a[1..] + b;
      PiecesConcat(a[1..], b);
      Reassociate(Split(a[0]), Pieces(a[1..]), Pieces(b));
    }
  }

  /** The number of the first line that line i of the texts falls into. */
  function FirstPiece(lines: seq<string>, i: nat): nat
    requires i <= |lines|
  {
    |Pieces(lines[..i])|
  }

  lemma {:induction false} PiecesAt(lines: seq<string>, i: nat, m: nat)
    requires i < |lines| && m < |Split(lines[i])|
    ensures FirstPiece(lines, i) + m < |Pieces(lines)|
    ensures Pieces(lines)[FirstPiece(lines, i) + m] == Split(lines[i])[m]
  {
    assert lines == lines[..i] + lines[i..];
    PiecesConcat(lines[..i], lines[i..]);
  }

  // --- the rewritten line -----------------------------------------------------------------

  /** `strncat` into a buffer of READ_BUFFER bytes that holds `head`. */
  function Appended(head: string, tail: string): (r: string)
    requires |head| < READ_BUFFER
    ensures |r| < READ_BUFFER && head <= r
  {
    var room := READ_BUFFER - |head| - 1;
    head + if |tail| <= room then tail else tail[..room]
  }

  /** There is a hash and a closed command to find. */
  predicate Tamperable(orig: string)
  {
    && StrStr(orig, "\"hash\"").Some?
    && After(orig, COMMAND_KEY).Some?
    && StrChr(After(orig, COMMAND_KEY).value, QUOTE).Some?
  }

  /** The line with the text between the command's quotes replaced. */
  function TamperedLine(orig: string, value: string): string
    requires |orig| < READ_BUFFER && Tamperable(orig)
  {
    var cmd := After(orig, COMMAND_KEY).value;
    var end := StrChr(cmd, QUOTE).value;
    Appended(Appended(orig[..|orig| - |cmd|], value), end)
  }

  /** The file after a tamper simulation: unchanged when the line cannot be rewritten. */
  function TamperedFile(file: Option<string>, line: int, value: string): Option<string>
  {
    var lines := FileLines(file);
    if line < 0 || line >= |lines| || !Tamperable(lines[line]) then file
    else
      FileLinesFit(file, line);
      Some(Written(lines[line := TamperedLine(lines[line], value)]))
  }

  function Cached(lines: seq<string>): seq<string>
  {
    if |lines| <= MAX_LINES then lines else lines[..MAX_LINES]
  }

  /** The rewrite keeps every other cached line; lines beyond the cache's capacity are lost. */
  lemma {:induction false} TamperRewrites(lines: seq<string>, k: nat, value: string)
    requires forall i | 0 <= i < |lines| :: LogLine(lines[i])
    requires k < |Cached(lines)| && |lines[k]| < READ_BUFFER
    ensures TamperedFile(Some(Written(lines)), k, value) ==
            Some(if Tamperable(lines[k]) then Written(Cached(lines)[k := TamperedLine(lines[k], value)])
                 else Written(lines))
  {
    hide Tamperable, TamperedLine;
    ReadBack(lines, MAX_LINES);
  }

  /** `strncat(dst, src, room)`. */
  method StrNCat(dst: array<char>, src: string)
    requires dst.Length == READ_BUFFER && |Held(dst)| < READ_BUFFER && NUL !in src
    modifies dst
    ensures Held(dst) == Appended(old(Held(dst)), src)
  {
    ghost var head := Held(dst);
    var at := |CStr(dst[..])|;
    var room := READ_BUFFER - at - 1;
    var n := if |src| <= room then |src| else room;
    forall k | 0 <= k < n {
      dst[at + k] := src[k];
    }
    dst[at + n] := NUL;
    assert dst[..at] == head;
    assert dst[..at + n] == head + src[..n];
    CStrIs(dst[..], head + src[..n]);
  }

  // --- the log ------------------------------------------------------------------------------

  class Log {
    var file: Option<string>
    const cached_lines: array<string>
    var cached_count: nat

    ghost predicate Valid()
      reads this
    {
      cached_lines.Length == MAX_LINES && cached_count <= MAX_LINES
    }

    constructor (existing: Option<string>)
      ensures Valid() && fresh(cached_lines) && file == existing && cached_count == 0
    {
      file := existing;
      cached_lines := new string[MAX_LINES];
      cached_count := 0;
    }

    /** Appends the printed event as one line, creating the file if need be. */
    method Write(ev: AuditEvent)
      requires Valid() && ev.Valid()
      modifies `file
      ensures Valid()
      ensures file == Some((if old(file).Some? then old(file).value else "") +
                           (Printed(JsonText(ev.Value()), JSON_EVENT_MAX) + "\n"))
    {
      var json := new char[JSON_EVENT_MAX];
      ev.ToJson(json);
      var text := CStr(json[..]);
      file := Some((if file.Some? then file.value else "") + (text + "\n"));
    }

    method ReadAll() returns (count: nat)
      requires Valid()
      modifies `cached_count, cached_lines
      ensures Valid() && count == cached_count
      ensures cached_lines[..count] == FileLines(file)
    {
      cached_count := 0;
      if file.None? {
        return 0;
      }
      var rest := file.value;
      ghost var done: seq<string> := [];
      while rest != "" && cached_count < MAX_LINES
        invariant Valid() && done == cached_lines[..cached_count]
        invariant FileLines(file) == done + ReadLines(rest, MAX_LINES - cached_count)
        decreases |rest|
      {
        var n := ChunkLength(rest, READ_BUFFER - 1);
        var line := Stripped(rest[..n]);
        StoreLine(line);
        ReadLinesStep(done, rest, MAX_LINES - cached_count + 1);
        done := done + [line];
        rest := rest[n..];
      }
      assert done + [] == done;
      count := cached_count;
    }

    method StoreLine(line: string)
      requires Valid() && cached_count < MAX_LINES
      modifies `cached_count, cached_lines
      ensures Valid() && cached_count == old(cached_count) + 1
      ensures cached_lines[..cached_count] == old(cached_lines[..cached_count]) + [line]
    {
      cached_lines[cached_count] := line;
      cached_count := cached_count + 1;
    }

    method SimulateTamper(line: int, new_value: string) returns (rc: int)
      requires Valid() && NUL !in new_value
      modifies this, cached_lines
      ensures Valid()
      ensures file == TamperedFile(old(file), line, new_value)
      ensures rc == 0 <==> 0 <= line < |FileLines(old(file))| && Tamperable(FileLines(old(file))[line])
      ensures rc == 0 || rc == -1
    {
      var count := ReadAll();
      ghost var lines := FileLines(file);
      if line < 0 || line >= count { return -1; }
      FileLinesFit(file, line);
      var orig := cached_lines[line];
      assert orig == lines[line];
      var hashPos := StrStr(orig, "\"hash\"");
      if hashPos.None? { return -1; }
      var cmdPos := After(orig, COMMAND_KEY);
      if cmdPos.None? { return -1; }
      var cmdEnd := StrChr(cmdPos.value, QUOTE);
      if cmdEnd.None? { return -1; }
      var text := BuildLine(orig[..|orig| - |cmdPos.value|], new_value, cmdEnd.value);
      assert TamperedLine(orig, new_value) == text;
      var out := Rewrite(count, line, text);
      file := Some(out);
      return 0;
    }

    /** What the rewrite loop prints into the reopened file. */
    method Rewrite(count: nat, line: nat, text: string) returns (out: string)
      requires Valid() && line < count <= MAX_LINES
      ensures out == Written(cached_lines[..count][line := text])
    {
      hide Written;
      ghost var all := cached_lines[..count][line := text];
      WrittenNothing();
      var i := 0;
      out := "";
      while i < count
        invariant 0 <= i <= count
        invariant out == Written(all[..i])
      {
        var printed := if i == line then text else cached_lines[i];
        assert printed == all[i];
        WrittenAppend(all[..i], printed);
        assert all[..i + 1] == all[..i] + [printed];
        out := out + (printed + "\n");
        i := i + 1;
      }
      assert all[..count] == all;
    }

    /** The new line, put together in a local buffer. */
    method BuildLine(prefix: string, value: string, rest: string) returns (text: string)
      requires |prefix| < READ_BUFFER && NUL !in prefix && NUL !in value && NUL !in rest
      ensures text == Appended(Appended(prefix, value), rest)
    {
      var line := new char[READ_BUFFER];
      forall k | 0 <= k < |prefix| {
        line[k] := prefix[k];
      }
      line[|prefix|] := NUL;
      assert line[..|prefix|] == prefix;
      CStrIs(line[..], prefix);
      StrNCat(line, value);
      StrNCat(line, rest);
      text := CStr(line[..]);
    }

    method Clear()
      requires Valid()
      modifies `file
      ensures Valid() && file == None
    {
      if file.Some? {
        file := None;
      }
    }
  }
}
