/** The constant-time tail of the log file (app/logging.py). */
module LogTail {
  import opened Wrappers
  import opened Text

  type Bytes = seq<bv8>
  const NL: bv8 := 10

  /** What UTF-8 decoding with replacement guarantees about newlines: the newline byte, and only
      it, decodes to a newline, and it always restarts decoding afresh. */
  ghost predicate LineSafe(decode: Bytes -> string) {
    && (forall a: Bytes, b: Bytes :: decode(a + [NL] + b) == decode(a) + ['\n'] + decode(b))
    && (forall a: Bytes :: NL !in a ==> '\n' !in decode(a))
  }

  function DropEmptyLast(lines: seq<string>): seq<string> {
    if lines != [] && Last(lines) == "" then Front(lines) else lines
  }

  /** `lines[-n:]` for a positive n. */
  function LastN<T>(lines: seq<T>, n: nat): seq<T> {
    if |lines| <= n then lines else lines[|lines| - n..]
  }

  /** The specification: decode the whole file, cut it into lines, keep the last `n`. */
  function WholeFileTail(decode: Bytes -> string, file: Bytes, n: nat): string {
    Join('\n', LastN(DropEmptyLast(Split('\n', decode(file))), n))
  }

  /** The lines of a text: a newline ends a line, and one at the very end starts no further line. */
  function Lines(text: string): seq<string> {
    if text == "" then []
    else
      var rest := Lines(text[1..]);
      if text[0] == '\n' then [""] + rest
      else if rest == [] then [[text[0]]]
      else [[text[0]] + rest[0]] + rest[1..]
  }

  lemma {:induction false} LinesAreSplit(text: string)
    ensures DropEmptyLast(Split('\n', text)) == Lines(text)
  {
    if text != "" {
      var parts := Split('\n', text[1..]);
      LinesAreSplit(text[1..]);
      if text[0] == '\n' {
        assert Last([""] + parts) == Last(parts) && Front([""] + parts) == [""] + Front(parts);
      } else {
        var word := [text[0]] + parts[0];
        if |parts| == 1 {
          assert [word] + parts[1..] == [word] && Last([word]) == word;
          assert parts == [parts[0]] && Front(parts) == [] && Last(parts) == parts[0];
          assert parts[0] == "" ==> word == [text[0]];
        } else {
          assert Last([word] + parts[1..]) == Last(parts) && Front([word] + parts[1..]) == [word] + Front(parts)[1..];
          assert Front(parts)[0] == parts[0];
        }
      }
    }
  }

  /** So the tail is the last `n` lines of the decoded file, or all of them if there are fewer, joined by
      newlines. */
  lemma TailExactly(decode: Bytes -> string, file: Bytes, n: nat)
    ensures var lines := Lines(decode(file));
      WholeFileTail(decode, file, n) == Join('\n', lines[if |lines| > n then |lines| - n else 0..])
  {
    LinesAreSplit(decode(file));
  }

  function Concat(chunks: seq<Bytes>): Bytes {
    if chunks == [] then [] else chunks[0] + Concat(chunks[1..])
  }

  /** The position of the first newline. */
  lemma {:induction false} FirstNewline(data: Bytes) returns (k: nat)
    requires NL in data
    ensures k < |data| && data[k] == NL && NL !in data[..k]
  {
    if data[0] == NL {
      k := 0;
    } else {
      assert data == [data[0]] + data[1..];
      var r := FirstNewline(data[1..]);
      k := r + 1;
      assert data[..k] == [data[0]] + data[1..][..r];
    }
  }

  /** Decoding keeps the number of newlines. */
  lemma {:induction false} NewlinesDecode(decode: Bytes -> string, data: Bytes)
    requires LineSafe(decode)
    ensures Count('\n', decode(data)) == Count(NL, data)
    decreases |data|
  {
    if NL !in data {
      CountNone(NL, data);
      CountNone('\n', decode(data));
    } else {
      var k := FirstNewline(data);
      var a, b := data[..k], data[k + 1..];
      assert data == a + [NL] + b;
      NewlinesDecode(decode, b);
      NewlinesDecode(decode, a);
      CountAround(NL, a, b);
      CountAround('\n', decode(a), decode(b));
    }
  }

  lemma {:induction false} CountNone<T>(x: T, s: seq<T>)
    requires x !in s
    ensures Count(x, s) == 0
  {
    if s != [] { CountNone(x, s[1..]); }
  }

  lemma CountAround<T>(x: T, a: seq<T>, b: seq<T>)
    ensures Count(x, a + [x] + b) == Count(x, a) + 1 + Count(x, b)
  {
    CountConcat(x, a + [x], b);
    CountConcat(x, a, [x]);
    assert Count(x, [x]) == 1 + Count(x, [x][1..]);
  }

  lemma LastNSuffix<T>(xs: seq<T>, ys: seq<T>, n: nat)
    requires n <= |ys|
    ensures LastN(xs + ys, n) == LastN(ys, n)
  {
  }

  /** The lines left after dropping the partial first line of a suffix. */
  function SuffixLines(decode: Bytes -> string, data: Bytes): seq<string> {
    var lines := DropEmptyLast(Split('\n', decode(data)));
    if lines == [] then [] else lines[1..]
  }

  lemma DropEmptyLastSuffix(xs: seq<string>, ys: seq<string>, n: nat)
    requires |ys| > n
    ensures LastN(DropEmptyLast(xs + ys), n) == LastN(DropEmptyLast(ys), n)
    ensures DropEmptyLast(xs + ys) == xs + DropEmptyLast(ys)
  {
    assert Last(xs + ys) == Last(ys) && Front(xs + ys) == xs + Front(ys);
    LastNSuffix(xs, DropEmptyLast(ys), n);
  }

  /** A line break cuts the decoded text into the lines before and the lines after. */
  lemma LinesAround(decode: Bytes -> string, a: Bytes, b: Bytes)
    requires LineSafe(decode)
    ensures Split('\n', decode(a + [NL] + b)) == Split('\n', decode(a)) + Split('\n', decode(b))
  {
    SplitAtSeparator('\n', decode(a), decode(b));
  }

  /** Any suffix with more than `n` newlines is enough: its lines, minus the partial first one,
      end in exactly the file's last `n` lines. */
  lemma SuffixIsEnough(decode: Bytes -> string, file: Bytes, pos: nat, n: nat)
    requires LineSafe(decode) && n >= 1 && pos <= |file| && Count(NL, file[pos..]) > n
    ensures LastN(SuffixLines(decode, file[pos..]), n) == LastN(DropEmptyLast(Split('\n', decode(file))), n)
  {
    var data := file[pos..];
    if NL !in data { CountNone(NL, data); }
    var k := FirstNewline(data);
    var head, rest := data[..k], data[k + 1..];
    assert data == head + [NL] + rest;
    assert file == (file[..pos] + head) + [NL] + rest;
    CountAround(NL, head, rest);
    CountNone(NL, head);
    var tail := Split('\n', decode(rest));
    NewlinesDecode(decode, rest);
    SplitLength('\n', decode(rest));
    LinesAround(decode, file[..pos] + head, rest);
    LinesAround(decode, head, rest);
    SplitWhole('\n', decode(head));
    DropEmptyLastSuffix(Split('\n', decode(file[..pos] + head)), tail, n);
    DropEmptyLastSuffix([decode(head)], tail, n);
  }

  /** What was read is the end of the file from `pos`: all of it, or enough newlines. */
  ghost predicate EnoughFrom(file: Bytes, n: nat, data: Bytes, reachedStart: bool, pos: nat) {
    pos <= |file| && data == file[pos..] && reachedStart == (pos == 0) && (pos > 0 ==> Count(NL, data) > n)
  }

  /** Reading backwards: the chunks, newest last, put back in file order. */
  method ReadBack(file: Bytes, n: nat, blockSize: nat) returns (data: Bytes, reachedStart: bool)
    requires blockSize >= 1 && file != []
    ensures exists pos: nat :: EnoughFrom(file, n, data, reachedStart, pos)
  {
    var chunks: seq<Bytes> := [];  // in file order: each new chunk goes in front
    var newlines, pos := 0, |file|;
    reachedStart := false;
    assert file[pos..] == [];
    while pos > 0
      invariant 0 <= pos <= |file|
      invariant Concat(chunks) == file[pos..]
      invariant newlines == Count(NL, file[pos..])
      invariant reachedStart == (pos == 0)
      decreases pos
    {
      var readLen := if blockSize < pos then blockSize else pos;
      ghost var oldPos := pos;
      pos := pos - readLen;
      var chunk := file[pos..pos + readLen];
      chunks := [chunk] + chunks;
      newlines := newlines + Count(NL, chunk);
      assert file[pos..] == chunk + file[oldPos..];
      CountConcat(NL, chunk, file[oldPos..]);
      if pos == 0 {
        reachedStart := true;
      }
      if newlines > n {
        break;
      }
    }
    data := Concat(chunks);
    assert EnoughFrom(file, n, data, reachedStart, pos);
  }

  /** `read_log_tail(n)`: whatever the file and the block size, the last `n` lines of the whole file. */
  method ReadLogTail(file: Option<Bytes>, n: nat, blockSize: nat, decode: Bytes -> string) returns (tail: string)
    requires n >= 1 && blockSize >= 1 && LineSafe(decode)
    ensures file.None? || file.value == [] ==> tail == ""
    ensures file.Some? && file.value != [] ==> tail == WholeFileTail(decode, file.value, n)
  {
    if file.None? || file.value == [] {
      return "";
    }
    var data, reachedStart := ReadBack(file.value, n, blockSize);
    ghost var pos: nat :| EnoughFrom(file.value, n, data, reachedStart, pos);
    var lines := Split('\n', decode(data));
    if Last(lines) == "" {
      lines := Front(lines);
    }
    if !reachedStart && lines != [] {
      lines := lines[1..];
    }
    if pos == 0 {
      assert data == file.value;
    } else {
      SuffixIsEnough(decode, file.value, pos, n);
    }
    tail := Join('\n', LastN(lines, n));
  }
}
