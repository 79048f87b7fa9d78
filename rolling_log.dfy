/**
 * `RollingHandler` of AutoProxy: a logging handler that keeps the last
 * `max_size` formatted records and, on every record, sends the window
 * joined with newlines to the log widget.
 *
 * Records arrive already formatted (a `string`); the Qt signal is the text
 * `Emit` returns.
 */
module RollingLog {

  /** The last `n` elements of `s`, or all of `s` when it is shorter. */
  function LastN<T>(s: seq<T>, n: nat): (r: seq<T>)
    ensures |r| == if |s| <= n then |s| else n
    ensures forall k :: 0 <= k < |r| ==> r[k] == s[|s| - |r| + k]
  {
    if |s| <= n then s else s[|s| - n..]
  }

  /**
   * Appending to a window of `h` and trimming it again gives the window of
   * `h` extended: a bounded deque only ever needs the last `n` records.
   */
  lemma LastNAppend<T>(h: seq<T>, x: T, n: nat)
    ensures LastN(LastN(h, n) + [x], n) == LastN(h + [x], n)
  {
    var w := LastN(h, n);
    var a := LastN(w + [x], n);
    var b := LastN(h + [x], n);
    var m := |a|;
    assert m == |b|;
    forall k | 0 <= k < m ensures a[k] == b[k] {
      if k == m - 1 {
        assert a[k] == x && b[k] == x;
      } else {
        var i := |w| + 1 - m + k;
        assert a[k] == (w + [x])[i] == w[i];
        assert w[i] == h[|h| - |w| + i];
        assert b[k] == (h + [x])[|h| - |w| + i];
      }
    }
  }

  /**
   * One append to a deque of at most `n` records: the result never exceeds
   * `n`, the new record is last, and an entry is dropped only when the deque
   * was full, and then exactly the oldest one.
   */
  lemma AppendWindow<T>(buf: seq<T>, x: T, n: nat)
    requires |buf| <= n
    ensures |LastN(buf + [x], n)| <= n
    ensures n == 0 ==> LastN(buf + [x], n) == []
    ensures n > 0 ==> LastN(buf + [x], n)[|LastN(buf + [x], n)| - 1] == x
    ensures |buf| < n ==> LastN(buf + [x], n) == buf + [x]
    ensures 0 < n == |buf| ==> LastN(buf + [x], n) == buf[1..] + [x]
  {
    if 0 < n == |buf| {
      assert (buf + [x])[|buf + [x]| - n..] == buf[1..] + [x];
    }
  }

  /** `"\n".join(lines)`. */
  function Join(lines: seq<string>): (t: string)
    ensures lines == [] ==> t == ""
  {
    if lines == [] then ""
    else if |lines| == 1 then lines[0]
    else lines[0] + "\n" + Join(lines[1..])
  }

  /** The lines of a text, cut at every newline, as the widget shows them. */
  function Split(t: string): (r: seq<string>)
    ensures |r| >= 1
    ensures forall k :: 0 <= k < |r| ==> '\n' !in r[k]
  {
    if t == [] then [""]
    else if t[0] == '\n' then [""] + Split(t[1..])
    else
      var rest := Split(t[1..]);
      [[t[0]] + rest[0]] + rest[1..]
  }

  /** A text without a newline is one line. */
  lemma {:induction false} SplitOne(a: string)
    requires '\n' !in a
    ensures Split(a) == [a]
  {
    if a != [] {
      SplitOne(a[1..]);
      assert [a[0]] + a[1..] == a;
    }
  }

  /** The text up to the first newline is the first line. */
  lemma {:induction false} SplitFirst(a: string, b: string)
    requires '\n' !in a
    ensures Split(a + "\n" + b) == [a] + Split(b)
  {
    if a == [] {
      assert a + "\n" + b == "\n" + b;
      assert ("\n" + b)[1..] == b;
    } else {
      SplitFirst(a[1..], b);
      assert (a + "\n" + b)[1..] == a[1..] + "\n" + b;
      assert [a[0]] + a[1..] == a;
    }
  }

  /**
   * The widget reads the window back line by line: for records without a
   * newline, cutting the joined text at newlines gives the records again.
   */
  lemma {:induction false} JoinSplit(lines: seq<string>)
    requires lines != []
    requires forall k :: 0 <= k < |lines| ==> '\n' !in lines[k]
    ensures Split(Join(lines)) == lines
  {
    if |lines| == 1 {
      SplitOne(lines[0]);
    } else {
      JoinSplit(lines[1..]);
      SplitFirst(lines[0], Join(lines[1..]));
      assert [lines[0]] + lines[1..] == lines;
    }
  }

  class RollingHandler {
    /** `maxlen` of the deque. */
    const maxSize: nat
    /** The deque of formatted records, oldest first. */
    var lines: seq<string>
    /** Every record emitted so far. */
    ghost var history: seq<string>

    /** The deque holds the newest `maxSize` records emitted. */
    ghost predicate Valid()
      reads this
    {
      lines == LastN(history, maxSize)
    }

    /** `__init__`: an empty deque of at most `maxSize` records (50 unless given). */
    constructor (maxSize: nat := 50)
      ensures Valid()
      ensures this.maxSize == maxSize && lines == [] && history == []
    {
      this.maxSize := maxSize;
      lines := [];
      history := [];
    }

    /** `emit`: append the record, dropping the oldest when full, and send the joined window. */
    method Emit(line: string) returns (text: string)
      requires Valid()
      modifies this
      ensures Valid() && history == old(history) + [line]
      ensures lines == LastN(old(lines) + [line], maxSize)
      ensures |lines| <= maxSize && (maxSize > 0 ==> lines[|lines| - 1] == line)
      ensures text == Join(lines)
    {
      if maxSize == 0 {
        lines := [];
      } else if |lines| < maxSize {
        lines := lines + [line];
      } else {
        lines := lines[1..] + [line];
      }
      AppendWindow(old(lines), line, maxSize);
      LastNAppend(history, line, maxSize);
      history := history + [line];
      text := Join(lines);
    }
  }
}
