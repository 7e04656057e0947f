/** Line-ending rewriting for the browser terminal (wasmmod_js.go).

    Two different rewrites exist in the source: the terminal writer that
    the CLI prints through turns every LF into LF CR, and the goroutine
    dump turns every LF into CR LF.  Both are modelled on bytes, each with
    a decoder that undoes it, and the dump's byte-by-byte loop is proved
    to fill exactly the capacity it preallocates.
 */
module TermText {

  newtype byte = x: int | 0 <= x < 256

  const LF: byte := 10
  const CR: byte := 13

  /** bytes.Count(s, "\n") */
  function CountLF(s: seq<byte>): nat
  {
    multiset(s)[LF]
  }

  // ---------------------------------------------------------------------
  // termWriter.Write: bytes.Replace(p, "\n", "\n\r", -1)
  // ---------------------------------------------------------------------

  /** Every LF becomes LF CR; every other byte is copied. */
  function LfToLfCr(p: seq<byte>): seq<byte>
  {
    if p == [] then []
    else LfToLfCr(p[..|p| - 1]) + (if p[|p| - 1] == LF then [LF, CR] else [p[|p| - 1]])
  }

  /** Undoes LfToLfCr: an LF CR pair at the end becomes LF. */
  function StripLfCr(s: seq<byte>): seq<byte>
    decreases |s|
  {
    if s == [] then []
    else if |s| >= 2 && s[|s| - 2] == LF && s[|s| - 1] == CR then StripLfCr(s[..|s| - 2]) + [LF]
    else StripLfCr(s[..|s| - 1]) + [s[|s| - 1]]
  }

  datatype WriteResult = WriteResult(n: int, err: bool, written: seq<byte>)

  /** termWriter.Write: the text handed to the terminal, and the count and
      error returned to the caller (err models a non-nil error). */
  function TermWrite(p: seq<byte>): (r: WriteResult)
    ensures r.n == |p| && !r.err
    ensures |r.written| == |p| + CountLF(p)
    ensures CountLF(p) == 0 ==> r.written == p
    ensures StripLfCr(r.written) == p
  {
    LfCrLength(p);
    LfCrIdentity(p);
    LfCrRoundTrip(p);
    WriteResult(|p|, false, LfToLfCr(p))
  }

  lemma {:induction false} LfCrLength(p: seq<byte>)
    ensures |LfToLfCr(p)| == |p| + CountLF(p)
  {
    if p != [] {
      var init := p[..|p| - 1];
      assert p == init + [p[|p| - 1]];
      LfCrLength(init);
    }
  }

  lemma {:induction false} LfCrIdentity(p: seq<byte>)
    ensures CountLF(p) == 0 ==> LfToLfCr(p) == p
  {
    if p != [] && CountLF(p) == 0 {
      var init := p[..|p| - 1];
      assert p == init + [p[|p| - 1]];
      assert multiset(p) == multiset(init) + multiset{p[|p| - 1]};
      LfCrIdentity(init);
    }
  }

  /** No output of LfToLfCr ends in a bare LF: every LF is followed by CR. */
  lemma {:induction false} LfCrNoTrailingLF(p: seq<byte>)
    ensures LfToLfCr(p) != [] ==> LfToLfCr(p)[|LfToLfCr(p)| - 1] != LF
  {
  }

  /** StripLfCr on an LF CR pair written last. */
  lemma StripLfCrPair(e: seq<byte>)
    ensures StripLfCr(e + [LF, CR]) == StripLfCr(e) + [LF]
  {
    var s := e + [LF, CR];
    assert s[..|s| - 2] == e;
  }

  /** StripLfCr on a last byte that does not complete an LF CR pair. */
  lemma StripLfCrByte(e: seq<byte>, b: byte)
    requires e == [] || e[|e| - 1] != LF || b != CR
    ensures StripLfCr(e + [b]) == StripLfCr(e) + [b]
  {
    var t := e + [b];
    assert t[..|t| - 1] == e;
    assert |t| >= 2 ==> t[|t| - 2] == e[|e| - 1];
  }

  lemma {:induction false} LfCrRoundTrip(p: seq<byte>)
    ensures StripLfCr(LfToLfCr(p)) == p
  {
    if p != [] {
      var init, last := p[..|p| - 1], p[|p| - 1];
      assert p == init + [last];
      var e := LfToLfCr(init);
      LfCrRoundTrip(init);
      if last == LF {
        assert LfToLfCr(p) == e + [LF, CR];
        StripLfCrPair(e);
      } else {
        assert LfToLfCr(p) == e + [last];
        LfCrNoTrailingLF(init);
        StripLfCrByte(e, last);
      }
    }
  }

  // ---------------------------------------------------------------------
  // seeGoroutines: every LF becomes CR LF, appended byte by byte
  // ---------------------------------------------------------------------

  /** Every LF becomes CR LF; every other byte is copied. */
  function LfToCrLf(p: seq<byte>): seq<byte>
  {
    if p == [] then []
    else LfToCrLf(p[..|p| - 1]) + (if p[|p| - 1] == LF then [CR, LF] else [p[|p| - 1]])
  }

  /** Undoes LfToCrLf: a CR LF pair at the end becomes LF. */
  function StripCrLf(s: seq<byte>): seq<byte>
    decreases |s|
  {
    if s == [] then []
    else if |s| >= 2 && s[|s| - 2] == CR && s[|s| - 1] == LF then StripCrLf(s[..|s| - 2]) + [LF]
    else StripCrLf(s[..|s| - 1]) + [s[|s| - 1]]
  }

  lemma {:induction false} CrLfLength(p: seq<byte>)
    ensures |LfToCrLf(p)| == |p| + CountLF(p)
  {
    if p != [] {
      var init := p[..|p| - 1];
      assert p == init + [p[|p| - 1]];
      CrLfLength(init);
    }
  }

  /** StripCrLf on a CR LF pair written last. */
  lemma StripCrLfPair(e: seq<byte>)
    ensures StripCrLf(e + [CR, LF]) == StripCrLf(e) + [LF]
  {
    var s := e + [CR, LF];
    assert s[..|s| - 2] == e;
  }

  /** StripCrLf on a last byte other than LF. */
  lemma StripCrLfByte(e: seq<byte>, b: byte)
    requires b != LF
    ensures StripCrLf(e + [b]) == StripCrLf(e) + [b]
  {
    var t := e + [b];
    assert t[..|t| - 1] == e;
  }

  lemma {:induction false} CrLfRoundTrip(p: seq<byte>)
    ensures StripCrLf(LfToCrLf(p)) == p
  {
    if p != [] {
      var init, last := p[..|p| - 1], p[|p| - 1];
      assert p == init + [last];
      var e := LfToCrLf(init);
      CrLfRoundTrip(init);
      if last == LF {
        assert LfToCrLf(p) == e + [CR, LF];
        StripCrLfPair(e);
      } else {
        assert LfToCrLf(p) == e + [last];
        StripCrLfByte(e, last);
      }
    }
  }

  /** One more byte of the dump converted: the output grows by that
      byte's unit, and the LFs still ahead lose that byte's count. */
  lemma CrLfStep(buf: seq<byte>, i: nat)
    requires i < |buf|
    ensures LfToCrLf(buf[..i + 1]) == LfToCrLf(buf[..i]) + (if buf[i] == LF then [CR, LF] else [buf[i]])
    ensures CountLF(buf[i..]) == (if buf[i] == LF then 1 else 0) + CountLF(buf[i + 1..])
  {
    assert buf[..i + 1][..i] == buf[..i];
    assert buf[i..] == [buf[i]] + buf[i + 1..] by {
      assert buf[i..][0] == buf[i];
      assert buf[i..][1..] == buf[i + 1..];
    }
    assert multiset(buf[i..]) == multiset{buf[i]} + multiset(buf[i + 1..]);
  }

  /** The conversion loop of seeGoroutines.  The buffer is allocated with
      capacity len(buf) + bytes.Count(buf, "\n"), and the loop is proved
      never to write past it and to fill it exactly. */
  method SeeGoroutinesText(buf: seq<byte>) returns (withCR: seq<byte>)
    ensures withCR == LfToCrLf(buf)
    ensures |withCR| == |buf| + CountLF(buf)
    ensures StripCrLf(withCR) == buf
  {
    var capacity := |buf| + CountLF(buf);
    var out := new byte[capacity];
    var len := 0;
    assert buf[0..] == buf;
    for i := 0 to |buf|
      invariant len == |LfToCrLf(buf[..i])|
      invariant len + (|buf| - i) + CountLF(buf[i..]) == capacity
      invariant out[..len] == LfToCrLf(buf[..i])
    {
      CrLfStep(buf, i);
      if buf[i] == LF {
        out[len] := CR;
        out[len + 1] := LF;
        len := len + 2;
      } else {
        out[len] := buf[i];
        len := len + 1;
      }
    }
    assert buf[..|buf|] == buf;
    withCR := out[..len];
    CrLfRoundTrip(buf);
  }
}
