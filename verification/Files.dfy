/** Files as the benchmarks use them: read from the front, or written to a device with
    room for so many bytes. */
module Files {
  import opened Bytes

  // A file being read from the front.
  class InFile {
    const data: seq<Byte>
    var pos: nat
    var eof: bool

    constructor (data: seq<Byte>)
      ensures this.data == data && pos == 0 && !eof
    {
      this.data := data;
      pos, eof := 0, false;
    }

    // fseek to the start.
    method Rewind()
      modifies this
      ensures pos == 0 && !eof
    {
      pos, eof := 0, false;
    }

    // fread: as many bytes as there are, up to n, into the buffer from its offset on.
    method Read(buf: array<Byte>, off: nat, n: nat) returns (i: nat)
      requires pos <= |data| && off + n <= buf.Length
      modifies this, buf
      ensures i == (if n <= |data| - old(pos) then n else |data| - old(pos))
      ensures pos == old(pos) + i && eof == (i < n || old(eof))
      ensures forall k :: off <= k < off + i ==> buf[k] == data[old(pos) + k - off]
      ensures forall k :: 0 <= k < buf.Length && !(off <= k < off + i) ==> buf[k] == old(buf[k])
    {
      i := if n <= |data| - pos then n else |data| - pos;
      forall k | off <= k < off + i {
        buf[k] := data[pos + k - off];
      }
      pos := pos + i;
      if i < n { eof := true; }
    }
  }

  function Clip(s: seq<Byte>, room: nat): (t: seq<Byte>) {
    if |s| <= room then s else s[..room]
  }

  // A file being written to a device with room for so many bytes.
  class OutFile {
    const room: nat
    var data: seq<Byte>

    constructor (room: nat)
      ensures this.room == room && data == []
    {
      this.room := room;
      data := [];
    }

    // fwrite: the bytes that still fit, and their number.
    method Write(b: seq<Byte>) returns (n: nat)
      requires |data| <= room
      modifies this
      ensures |data| <= room && data == Clip(old(data) + b, room) && n == |data| - |old(data)|
    {
      n := if |b| <= room - |data| then |b| else room - |data|;
      data := data + b[..n];
    }
  }

  lemma ClipGrows(s: seq<Byte>, b: seq<Byte>, room: nat)
    ensures Clip(Clip(s, room) + b, room) == Clip(s + b, room)
    ensures |Clip(s + b, room)| - |Clip(s, room)| == |b| <==> |s + b| <= room || b == []
  {
  }

  lemma ClipFull(s: seq<Byte>, t: seq<Byte>, room: nat)
    requires s <= t && |s| > room
    ensures Clip(t, room) == Clip(s, room) && |t| > room
  {
  }
}
