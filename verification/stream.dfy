/** The part of `std::ostream` the writers of Identy/Identy_io.cxx and
    Identy/Identy_io.hxx rely on, for an in-memory stream such as the
    `std::ostringstream` the library's callers pass: the characters written so
    far, the put position, and the `good()` state. A character of the stream
    is held as the byte it occupies. */
module Streams {
  import opened Bytes

  /** `write(x)` at put position `p`: the characters at `p` onwards are
      replaced by `x`, and the sequence grows when `x` runs past its end. */
  function Overwrite(c: seq<Byte>, p: nat, x: seq<Byte>): (r: seq<Byte>)
    requires p <= |c|
    ensures |r| == if p + |x| <= |c| then |c| else p + |x|
    ensures r[..p] == c[..p] && r[p..p + |x|] == x
    ensures p + |x| <= |c| ==> r[p + |x|..] == c[p + |x|..]
  {
    c[..p] + x + (if p + |x| <= |c| then c[p + |x|..] else [])
  }

  /** Writing nothing changes nothing. */
  lemma OverwriteNothing(c: seq<Byte>, p: nat)
    requires p <= |c|
    ensures Overwrite(c, p, []) == c
  {
    assert c[..p] + c[p..] == c;
  }

  /** At the end of the sequence a write appends. */
  lemma OverwriteAtEnd(c: seq<Byte>, x: seq<Byte>)
    ensures Overwrite(c, |c|, x) == c + x
  {
    assert c[..|c|] == c;
  }

  /** Two writes in a row leave what one write of both pieces leaves. */
  lemma OverwriteTwice(c: seq<Byte>, p: nat, x: seq<Byte>, y: seq<Byte>)
    requires p <= |c|
    ensures Overwrite(Overwrite(c, p, x), p + |x|, y) == Overwrite(c, p, x + y)
  {
    var once := Overwrite(c, p, x);
    var twice := Overwrite(once, p + |x|, y);
    var both := Overwrite(c, p, x + y);
    hide Overwrite;
    assert |twice| == |both|;
    forall i | 0 <= i < |twice| ensures twice[i] == both[i] {
      OverwriteAt(once, p + |x|, y, i);
      OverwriteAt(c, p, x + y, i);
      if i < p + |x| || i >= p + |x| + |y| {
        OverwriteAt(c, p, x, i);
      }
    }
  }

  /** Byte `i` after a write: the old byte outside the written range, the
      written byte inside it. */
  lemma OverwriteAt(c: seq<Byte>, p: nat, x: seq<Byte>, i: nat)
    requires p <= |c| && i < |Overwrite(c, p, x)|
    ensures Overwrite(c, p, x)[i] == if i < p || i >= p + |x| then c[i] else x[i - p]
  {
    var r := Overwrite(c, p, x);
    if i < p {
      assert r[i] == r[..p][i];
    } else if i < p + |x| {
      assert r[i] == r[p..p + |x|][i - p];
    } else {
      assert r[i] == r[p + |x|..][i - p - |x|];
    }
  }

  /** `std::ostream` over a growable in-memory buffer. */
  class OutStream {
    /** The characters in the buffer, as bytes. */
    var content: seq<Byte>
    /** The put position, what `tellp()` reports while the stream is good. */
    var pos: nat
    /** `good()`: no error state bit is set. */
    var good: bool

    predicate Valid()
      reads this
    {
      pos <= |content|
    }

    /** A freshly constructed `std::ostringstream`: empty, position 0, good. */
    constructor ()
      ensures Valid() && content == [] && pos == 0 && good
    {
      content := [];
      pos := 0;
      good := true;
    }

    /** `setstate(std::ios::badbit)`. */
    method SetBad()
      requires Valid()
      modifies this
      ensures Valid() && content == old(content) && pos == old(pos) && !good
    {
      good := false;
    }

    /** `write(data, n)` and `operator<<`: a stream that is not good takes
        nothing; a good one overwrites from the put position and moves it
        past what was written. An in-memory buffer always has room. */
    method Write(x: seq<Byte>)
      requires Valid()
      modifies this
      ensures Valid() && good == old(good)
      ensures old(good) ==> content == Overwrite(old(content), old(pos), x) && pos == old(pos) + |x|
      ensures !old(good) ==> content == old(content) && pos == old(pos)
    {
      if good {
        content := Overwrite(content, pos, x);
        pos := pos + |x|;
      }
    }

    /** `tellp()`: the put position, or -1 once the stream has failed. */
    method TellP() returns (p: int)
      ensures p == if good then pos else -1
    {
      p := if good then pos else -1;
    }

    /** `seekp(p)` to an absolute position: a stream that is not good stays
        as it is; a position outside the buffer fails the stream; any other
        becomes the put position. */
    method SeekP(p: int)
      requires Valid()
      modifies this
      ensures Valid() && content == old(content)
      ensures !old(good) ==> !good && pos == old(pos)
      ensures old(good) && 0 <= p <= |content| ==> good && pos == p
      ensures old(good) && !(0 <= p <= |content|) ==> !good && pos == old(pos)
    {
      if good {
        if 0 <= p <= |content| {
          pos := p;
        } else {
          good := false;
        }
      }
    }
  }

  /** A writer that emits several pieces in a row: `written` is what it has
      emitted since it started at `p0` on a buffer that held `c0`. */
  ghost predicate Emitted(s: OutStream, c0: seq<Byte>, p0: nat, written: seq<Byte>)
    reads s
  {
    s.Valid() && s.good && p0 <= |c0| && s.content == Overwrite(c0, p0, written) && s.pos == p0 + |written|
  }

  /** One more `write` by such a writer, which has so far emitted `sent`
      and then `part`. */
  method Put(s: OutStream, x: seq<Byte>, ghost c0: seq<Byte>, ghost p0: nat, ghost sent: seq<Byte>, ghost part: seq<Byte>)
    returns (ghost now: seq<Byte>)
    requires Emitted(s, c0, p0, sent + part)
    modifies s
    ensures now == part + x && Emitted(s, c0, p0, sent + now)
  {
    s.Write(x);
    OverwriteTwice(c0, p0, sent + part, x);
    now := part + x;
    assert sent + part + x == sent + now;
  }

  /** One more `stream << text` by such a writer, which has so far sent the
      text `sent` and then `part`. */
  method PutText(s: OutStream, text: string, ghost c0: seq<Byte>, ghost p0: nat, ghost sent: string, ghost part: string)
    returns (ghost now: string)
    requires Emitted(s, c0, p0, TextBytes(sent + part))
    modifies s
    ensures now == part + text && Emitted(s, c0, p0, TextBytes(sent + now))
  {
    s.Write(TextBytes(text));
    OverwriteTwice(c0, p0, TextBytes(sent + part), TextBytes(text));
    TextBytesAppend(sent + part, text);
    now := part + text;
    assert sent + part + text == sent + now;
  }
}
