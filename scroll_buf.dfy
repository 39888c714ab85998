/** The scrolling output region of the command-line client
    (`bb_cli/src/cli/mod.rs`): bytes written to it are kept in a buffer,
    and each flush keeps only the last `len` lines of the buffer before
    redrawing them from terminal row `min`. The redraw itself (cursor
    escape sequences written to standard output) is outside the model;
    what is modelled is the buffer and the trim that bounds it. */
module ScrollBuffer {
  import TransferWire

  type byte = TransferWire.byte

  const NEWLINE: byte := 10

  /** The number of newline bytes in `s`. */
  function Newlines(s: seq<byte>): nat
  {
    if s == [] then 0 else Newlines(s[..|s| - 1]) + (if s[|s| - 1] == NEWLINE then 1 else 0)
  }

  /** `s` without everything up to and including its `(n+1)`-th newline
      counted from the end; all of `s` when it has at most `n` newlines. */
  function Trimmed(s: seq<byte>, n: nat): seq<byte>
  {
    if s == [] then []
    else if s[|s| - 1] == NEWLINE then
      if n == 0 then [] else Trimmed(s[..|s| - 1], n - 1) + [NEWLINE]
    else Trimmed(s[..|s| - 1], n) + [s[|s| - 1]]
  }

  lemma NewlinesAppend(s: seq<byte>, t: seq<byte>)
    ensures Newlines(s + t) == Newlines(s) + Newlines(t)
    decreases |t|
  {
    if t == [] {
      assert s + t == s;
    } else {
      assert (s + t)[..|s + t| - 1] == s + t[..|t| - 1];
      NewlinesAppend(s, t[..|t| - 1]);
    }
  }

  /** The trim keeps a suffix of `s`. */
  lemma {:induction false} TrimmedSuffix(s: seq<byte>, n: nat)
    ensures |Trimmed(s, n)| <= |s|
    ensures Trimmed(s, n) == s[|s| - |Trimmed(s, n)|..]
  {
    if s != [] {
      var init := s[..|s| - 1];
      var last := s[|s| - 1];
      if !(last == NEWLINE && n == 0) {
        var m := if last == NEWLINE then n - 1 else n;
        TrimmedSuffix(init, m);
        var t := Trimmed(init, m);
        assert Trimmed(s, n) == t + [last];
        assert init[|init| - |t|..] + [last] == s[|s| - |t| - 1..];
      }
    }
  }

  /** A buffer with at most `n` newlines is kept whole. */
  lemma {:induction false} TrimmedAll(s: seq<byte>, n: nat)
    requires Newlines(s) <= n
    ensures Trimmed(s, n) == s
  {
    if s != [] {
      var init := s[..|s| - 1];
      var last := s[|s| - 1];
      var m := if last == NEWLINE then n - 1 else n;
      TrimmedAll(init, m);
      assert s == init + [last];
    }
  }

  /** A buffer with more than `n` newlines keeps exactly `n` of them, and
      what it drops ends with a newline. */
  lemma {:induction false} TrimmedCount(s: seq<byte>, n: nat)
    requires Newlines(s) > n
    ensures |Trimmed(s, n)| < |s|
    ensures Newlines(Trimmed(s, n)) == n && s[|s| - |Trimmed(s, n)| - 1] == NEWLINE
  {
    var init := s[..|s| - 1];
    var last := s[|s| - 1];
    if last != NEWLINE || n > 0 {
      var m := if last == NEWLINE then n - 1 else n;
      TrimmedCount(init, m);
      var t := Trimmed(init, m);
      assert Trimmed(s, n) == t + [last];
      NewlinesAppend(t, [last]);
      assert Newlines([last]) == if last == NEWLINE then 1 else 0;
      var k := |init| - |t| - 1;
      assert s[k] == init[k];
    }
  }

  /** Splitting `s` at `i`, trimming `s` is trimming its first part to the
      newlines the second part leaves, then keeping the second part. */
  lemma {:induction false} TrimmedSplit(s: seq<byte>, i: nat, n: nat)
    requires i <= |s| && Newlines(s[i..]) <= n
    ensures Trimmed(s, n) == Trimmed(s[..i], n - Newlines(s[i..])) + s[i..]
    decreases |s| - i
  {
    if i == |s| {
      assert s[..i] == s;
      assert s[i..] == [];
    } else {
      var init := s[..|s| - 1];
      var last := s[|s| - 1];
      assert s[i..] == init[i..] + [last];
      NewlinesAppend(init[i..], [last]);
      var m := if last == NEWLINE then n - 1 else n;
      TrimmedSplit(init, i, m);
      assert init[..i] == s[..i];
    }
  }

  /** Cutting right after a newline that leaves exactly `n` newlines
      behind it is the trim. */
  lemma TrimmedAt(s: seq<byte>, i: nat, n: nat)
    requires i < |s| && s[i] == NEWLINE && Newlines(s[i + 1..]) == n
    ensures Trimmed(s, n) == s[i + 1..]
  {
    TrimmedSplit(s, i + 1, n);
    assert s[..i + 1][..i] == s[..i];
  }

  /** Reading one more byte of the backward scan. */
  lemma NewlinesStep(s: seq<byte>, i: nat)
    requires i < |s|
    ensures Newlines(s[i..]) == Newlines(s[i + 1..]) + (if s[i] == NEWLINE then 1 else 0)
  {
    assert s[i..] == [s[i]] + s[i + 1..];
    NewlinesAppend([s[i]], s[i + 1..]);
  }

  class ScrollBuf {
    /** The terminal row the region starts at, and its number of lines. */
    var min: nat
    var len: nat
    var buf: seq<byte>
    /** Whether a flush saves and restores the cursor around the redraw. */
    var restore: bool

    /** `ScrollBuf::new`: an empty buffer that restores the cursor. */
    constructor (min: nat, len: nat)
      ensures this.min == min && this.len == len && buf == [] && restore
    {
      this.min := min;
      this.len := len;
      buf := [];
      restore := true;
    }

    /** `ScrollBuf::new_no_restore`: an empty buffer that leaves the cursor
        where the redraw ends. */
    constructor NoRestore(min: nat, len: nat)
      ensures this.min == min && this.len == len && buf == [] && !restore
    {
      this.min := min;
      this.len := len;
      buf := [];
      restore := false;
    }

    /** The trim at the start of `flush`: scan the buffer from the end
        counting newlines, and drop everything up to and including the one
        that takes the count past `len`. */
    method Trim()
      modifies this
      ensures buf == Trimmed(old(buf), len)
      ensures min == old(min) && len == old(len) && restore == old(restore)
    {
      ghost var s := buf;
      var line := 0;
      var idx := 0;
      var i := |buf|;
      while i > 0
        invariant 0 <= i <= |s| && idx == 0 && buf == s
        invariant min == old(min) && len == old(len) && restore == old(restore)
        invariant line == Newlines(s[i..]) <= len
      {
        i := i - 1;
        NewlinesStep(s, i);
        if buf[i] == NEWLINE {
          line := line + 1;
        }
        if line > len {
          TrimmedAt(s, i, len);
          idx := i + 1;
          break;
        }
      }
      if idx == 0 {
        assert s[i..] == s;
        TrimmedAll(s, len);
      }
      buf := buf[idx..];
    }

    /** `Write::write`: append `data`, flush when it holds a newline, and
        report all of it written. */
    method Write(data: seq<byte>) returns (n: nat)
      modifies this
      ensures n == |data|
      ensures buf == if NEWLINE in data then Trimmed(old(buf) + data, len) else old(buf) + data
      ensures min == old(min) && len == old(len) && restore == old(restore)
    {
      buf := buf + data;
      if NEWLINE in data {
        Trim();
      }
      n := |data|;
    }

    /** `ScrollBuf::back`: drop the last byte, if any (the terminal erase
        that follows is not modelled). */
    method Back()
      modifies this
      ensures buf == if old(buf) == [] then [] else old(buf)[..|old(buf)| - 1]
      ensures min == old(min) && len == old(len) && restore == old(restore)
    {
      if buf != [] {
        buf := buf[..|buf| - 1];
      }
    }
  }
}
