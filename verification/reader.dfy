/** The buffered reader over the network connection: header blocks and bodies are
    read from whatever chunks the network delivers. */
module Readers {
  import opened Text
  import M = Mime

  function Flatten(chunks: seq<string>): string {
    if chunks == [] then "" else chunks[0] + Flatten(chunks[1..])
  }

  /** bufio.Reader: bytes already received, and the reads the network still has in
      store (empty ones included).  After the last one every read fails. */
  class Reader {
    var buf: string
    var chunks: seq<string>

    constructor (chunks: seq<string>)
      ensures Stream() == Flatten(chunks)
    {
      this.buf := "";
      this.chunks := chunks;
    }

    /** All bytes still to come. */
    function Stream(): string
      reads this
    {
      buf + Flatten(chunks)
    }

    /** One network read. */
    method Fill() returns (ok: bool)
      modifies this
      ensures Stream() == old(Stream())
      ensures ok <==> old(chunks) != []
      ensures ok ==> |chunks| < |old(chunks)| && old(buf) <= buf
      ensures !ok ==> chunks == [] && buf == old(buf)
    {
      ok := chunks != [];
      if ok {
        buf := buf + chunks[0];
        chunks := chunks[1..];
      }
    }

    /** The socket is shut: what the network still had in store is lost. */
    method Cut()
      modifies `chunks
      ensures chunks == [] && Stream() == old(buf)
    {
      chunks := [];
    }

    /** Hands out the first `n` buffered bytes. */
    method Take(n: nat) returns (s: string)
      requires n <= |buf|
      modifies `buf
      ensures s == old(buf)[..n]
      ensures old(Stream()) == s + Stream()
    {
      s := buf[..n];
      assert buf == buf[..n] + buf[n..];
      buf := buf[n..];
    }

    /** ReadLine of bufio and textproto: a line without its end, or nothing more. */
    method ReadLine() returns (line: Option<string>)
      modifies this
      ensures old(chunks) == [] ==> chunks == []
      ensures match M.ReadLine(old(Stream()))
        case NoLine => line == None && Stream() == old(Stream())
        case Line(text, rest) => line == Some(text) && Stream() == rest
    {
      ghost var s := Stream();
      while '\n' !in buf
        invariant Stream() == s && (old(chunks) == [] ==> chunks == [])
        decreases |chunks|
      {
        var ok := Fill();
        if !ok {
          assert Stream() == buf;
          if buf == "" {
            return None;
          }
          var all := Take(|buf|);
          return Some(all);
        }
      }
      var n := IndexOf(buf, '\n');
      IndexOfAt(s, '\n', n) by {
        assert s[..n] == buf[..n];
      }
      var text := Take(n + 1);
      assert text[..n] == s[..n] && s[n + 1..] == Stream();
      return Some(M.DropCR(text[..n]));
    }

    /** Makes at least one byte available, if there is one. */
    method Peek() returns (c: Option<char>)
      modifies this
      ensures old(chunks) == [] ==> chunks == []
      ensures Stream() == old(Stream())
      ensures c == if Stream() == "" then None else Some(Stream()[0])
      ensures c.Some? ==> buf != ""
    {
      while buf == ""
        invariant Stream() == old(Stream()) && (old(chunks) == [] ==> chunks == [])
        decreases |chunks|
      {
        var ok := Fill();
        if !ok {
          assert Stream() == "";
          return None;
        }
      }
      return Some(buf[0]);
    }

    /** textproto's skipSpace: whether there was a blank to skip. */
    method SkipBlanks() returns (any: bool)
      modifies this
      ensures old(chunks) == [] ==> chunks == []
      ensures Stream() == M.SkipBlanks(old(Stream()))
      ensures any <==> |Stream()| < |old(Stream())|
    {
      any := false;
      while true
        invariant M.SkipBlanks(Stream()) == M.SkipBlanks(old(Stream()))
        invariant |Stream()| <= |old(Stream())|
        invariant any <==> |Stream()| < |old(Stream())|
        invariant old(chunks) == [] ==> chunks == []
        decreases |Stream()|
      {
        var c := Peek();
        if c.None? || !IsBlank(c.value) {
          return;
        }
        ghost var s := Stream();
        var b := Take(1);
        assert Stream() == s[1..];
        any := true;
      }
    }

    /** The folded lines behind a first line. */
    method ReadContinued(first: string) returns (line: string)
      modifies this
      ensures old(chunks) == [] ==> chunks == []
      ensures (line, Stream()) == M.Continued(first, old(Stream()))
    {
      line := first;
      while true
        invariant M.Continued(line, Stream()) == M.Continued(first, old(Stream()))
        invariant old(chunks) == [] ==> chunks == []
        decreases |Stream()|
      {
        ghost var s := Stream();
        var any := SkipBlanks();
        if !any {
          UnchangedByLength(s, Stream());
          return;
        }
        line := line + " ";
        var more := ReadLine();
        if more.None? {
          return;
        }
        line := line + Trim(more.value);
      }
    }

    /** One field with the lines folded onto it; the blank line gives None. */
    method ReadField() returns (r: FieldRead)
      modifies this
      ensures old(chunks) == [] ==> chunks == []
      ensures match M.NextField(true, old(Stream()))
        case Next(key, value, rest) => r == OneField(key, value) && Stream() == rest
        case End(rest) => r == NoField && Stream() == rest
        case Bad(cut, rest) => r == BadField(cut) && Stream() == rest
    {
      var line := ReadLine();
      if line.None? {
        return BadField(true);
      }
      if line.value == "" {
        return NoField;
      }
      if ':' !in line.value {
        return BadField(false);
      }
      var kv := ReadContinued(Trim(line.value));
      var n := IndexOf(kv, ':');
      if n == |kv| {
        return BadField(false);
      }
      var key, value := kv[..n], kv[n + 1..];
      if !M.ValidKey(key) || !M.ValidValue(value) {
        return BadField(false);
      }
      return OneField(M.Canonical(key), TrimLeft(value));
    }

    /** ReadMIMEHeader, field by field. */
    method ReadHeader() returns (r: HeaderBlock)
      modifies this
      ensures old(chunks) == [] ==> chunks == []
      ensures match M.ReadHeader(true, old(Stream()))
        case Block(headers, rest) => r == Headers(headers) && Stream() == rest
        case Failed(cut, rest) => r == Malformed(cut) && Stream() == rest
    {
      var first := Peek();
      if first.Some? && IsBlank(first.value) {
        var bad := ReadLine();
        return Malformed(false);
      }
      var m: M.Headers := map[];
      while true
        invariant M.Fields(true, Stream(), m) == M.ReadHeader(true, old(Stream()))
        invariant old(chunks) == [] ==> chunks == []
        decreases |Stream()|
      {
        var field := ReadField();
        match field {
          case BadField(cut) => return Malformed(cut);
          case NoField => return Headers(m);
          case OneField(key, value) => m := M.Add(m, key, value);
        }
      }
    }

    /** io.ReadFull: exactly `n` bytes, or failure with the stream used up. */
    method ReadFull(n: nat) returns (body: Option<string>)
      modifies this
      ensures old(chunks) == [] ==> chunks == []
      ensures n <= |old(Stream())| ==> body == Some(old(Stream())[..n]) && Stream() == old(Stream())[n..]
      ensures n > |old(Stream())| ==> body == None && Stream() == ""
    {
      var got := "";
      while |got| < n
        invariant |got| <= n
        invariant got + Stream() == old(Stream())
        invariant old(chunks) == [] ==> chunks == []
        decreases n - |got|, |chunks|
      {
        if buf == "" {
          var ok := Fill();
          if !ok {
            assert Stream() == "" && got == old(Stream());
            return None;
          }
        } else {
          ghost var s := Stream();
          var part := Take(if n - |got| <= |buf| then n - |got| else |buf|);
          assert got + s == (got + part) + Stream();
          got := got + part;
        }
      }
      assert got == old(Stream())[..n] && Stream() == old(Stream())[n..];
      return Some(got);
    }
  }

  datatype FieldRead = OneField(key: string, value: string) | NoField | BadField(cut: bool)

  datatype HeaderBlock = Headers(headers: M.Headers) | Malformed(cut: bool)

  lemma UnchangedByLength(s: string, t: string)
    requires t == M.SkipBlanks(s) && |t| == |s|
    ensures t == s
  {
  }
}
