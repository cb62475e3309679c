/**
 * The tiled image over the archive of raw mask tiles: a tile's bytes are
 * read from its archive entry into the raster's byte buffer by repeated
 * reads until the buffer is full.
 */
module TiledImage {
  import opened JavaLang

  /**
   * An archive entry's input stream. How many bytes a read delivers is the
   * stream's own choice: the k-th read delivers at most `chunk(k)` bytes and
   * at least one, unless the entry is exhausted (-1) or the read throws
   * IOException (`fails(k)`).
   */
  class EntryStream {
    const content: seq<int>
    const chunk: nat -> nat
    const fails: nat -> bool
    /** Bytes delivered so far. */
    var position: nat
    /** Reads issued so far. */
    var calls: nat
    var open: bool

    ghost predicate Valid()
      reads this
    {
      position <= |content| && forall k :: chunk(k) >= 1
    }

    constructor (content: seq<int>, chunk: nat -> nat, fails: nat -> bool)
      requires forall k :: chunk(k) >= 1
      ensures Valid()
      ensures this.content == content && this.chunk == chunk && this.fails == fails
      ensures position == 0 && calls == 0 && open
    {
      this.content := content;
      this.chunk := chunk;
      this.fails := fails;
      position := 0;
      calls := 0;
      open := true;
    }

    function Delivered(len: nat): (n: nat)
      requires Valid() && len > 0 && position < |content|
      reads this
      ensures 1 <= n <= len && position + n <= |content| && n <= chunk(calls)
    {
      var n := if chunk(calls) < len then chunk(calls) else len;
      if n < |content| - position then n else |content| - position
    }

    /** `read(b, off, len)`: puts the next bytes of the entry into b[off..] and says how many. */
    method Read(b: array<int>, off: nat, len: nat) returns (r: Result<int>)
      requires Valid() && open && len > 0 && off + len <= b.Length
      modifies this, b
      ensures Valid() && open && calls == old(calls) + 1
      ensures fails(old(calls)) ==> r == Err(IO) && position == old(position) && b[..] == old(b[..])
      ensures !fails(old(calls)) && old(position) == |content| ==>
        r == Ok(-1) && position == old(position) && b[..] == old(b[..])
      ensures !fails(old(calls)) && old(position) < |content| ==>
        var n := old(Delivered(len));
        && r == Ok(n)
        && position == old(position) + n
        && b[..] == old(b[..off]) + content[old(position)..position] + old(b[off + n..])
    {
      if fails(calls) {
        calls := calls + 1;
        return Err(IO);
      }
      if position == |content| {
        calls := calls + 1;
        return Ok(-1);
      }
      var n := Delivered(len);
      ghost var before := b[..];
      forall i | off <= i < off + n {
        b[i] := content[position + i - off];
      }
      assert b[..] == before[..off] + content[position..position + n] + before[off + n..];
      position := position + n;
      calls := calls + 1;
      r := Ok(n);
    }

    method Close()
      modifies this
      ensures !open
      ensures position == old(position) && calls == old(calls)
    {
      open := false;
    }
  }

  /** Whether one of the reads numbered from `first` up to `last` (excluded) throws. */
  ghost predicate AnyFails(s: EntryStream, first: nat, last: nat)
    reads s
  {
    exists k :: first <= k < last && s.fails(k)
  }

  class TiledShapefileOpImage {
    const tileWidth: nat
    const tileHeight: nat
    const tileGridXOffset: int
    const tileGridYOffset: int
    var zipOpen: bool

    constructor (tileWidth: nat, tileHeight: nat, tileGridXOffset: int, tileGridYOffset: int)
      ensures this.tileWidth == tileWidth && this.tileHeight == tileHeight
      ensures this.tileGridXOffset == tileGridXOffset && this.tileGridYOffset == tileGridYOffset
      ensures zipOpen
    {
      this.tileWidth := tileWidth;
      this.tileHeight := tileHeight;
      this.tileGridXOffset := tileGridXOffset;
      this.tileGridYOffset := tileGridYOffset;
      zipOpen := true;
    }

    function TileXToX(tileX: int): int reads this { tileX * tileWidth + tileGridXOffset }

    function TileYToY(tileY: int): int reads this { tileY * tileHeight + tileGridYOffset }

    /**
     * `readRawDataTile`: reads until the buffer holds `data.Length` bytes,
     * each request asking for exactly the space still free. The entry must
     * hold a whole tile: with fewer bytes, each read at end of stream returns
     * -1 and lowers the count by one, and once the count is negative the next
     * read gets a negative offset and throws IndexOutOfBoundsException, a path
     * after a partly filled buffer that is not modelled. On success the buffer holds the
     * entry's next bytes in order; a read that throws ends the loop. The
     * stream is closed either way.
     */
    method ReadRawDataTile(data: array<int>, s: EntryStream) returns (r: Result<()>)
      requires s.Valid() && s.open
      requires |s.content| - s.position >= data.Length
      modifies data, s
      ensures s.Valid() && !s.open
      ensures r.Ok? <==> !AnyFails(s, old(s.calls), s.calls)
      ensures r.Err? ==> r.error == IO && s.fails(s.calls - 1)
      ensures r.Ok? ==> data[..] == old(s.content[s.position..s.position + data.Length])
      ensures r.Ok? ==> s.position == old(s.position) + data.Length
      ensures s.calls - old(s.calls) <= data.Length + 1
    {
      var count := 0;
      var amount := data.Length;
      while count < data.Length
        invariant s.Valid() && s.open
        invariant 0 <= count <= data.Length
        invariant s.position == old(s.position) + count
        invariant data.Length - count <= amount <= data.Length
        invariant data[..count] == s.content[old(s.position)..s.position]
        invariant !AnyFails(s, old(s.calls), s.calls)
        invariant old(s.calls) <= s.calls <= old(s.calls) + count
        decreases data.Length - count
      {
        if count + amount > data.Length {
          amount := data.Length - count;
        }
        ghost var p0, c0 := s.position, s.calls;
        var n := s.Read(data, count, amount);
        if n.Err? {
          assert old(s.calls) <= c0 < s.calls && s.fails(c0);
          assert AnyFails(s, old(s.calls), s.calls);
          s.Close();
          return Err(n.error);
        }
        assert data[..count + n.value] == s.content[old(s.position)..p0] + s.content[p0..s.position];
        count := count + n.value;
      }
      assert count == data.Length;
      assert data[..] == data[..count];
      s.Close();
      r := Ok(());
    }

    /**
     * `computeTile`: a byte raster of one tile at the tile's origin, filled
     * from the entry stream; an IOException becomes a RuntimeException.
     */
    method ComputeTile(tileX: int, tileY: int, s: EntryStream) returns (r: Result<(int, int, array<int>)>)
      requires s.Valid() && s.open
      requires |s.content| - s.position >= tileWidth * tileHeight
      modifies s
      ensures s.Valid() && !s.open
      ensures r.Ok? <==> !AnyFails(s, old(s.calls), s.calls)
      ensures r.Err? ==> r.error == Runtime
      ensures r.Ok? ==> r.value.0 == TileXToX(tileX) && r.value.1 == TileYToY(tileY)
      ensures r.Ok? ==> fresh(r.value.2)
      ensures r.Ok? ==> r.value.2[..] == old(s.content[s.position..s.position + tileWidth * tileHeight])
    {
      var data := new int[tileWidth * tileHeight];
      var read := ReadRawDataTile(data, s);
      if read.Err? {
        return Err(Runtime);
      }
      r := Ok((TileXToX(tileX), TileYToY(tileY), data));
    }

    /** `dispose`: closes the archive; an IOException while closing is only reported. */
    method Dispose()
      modifies this
      ensures !zipOpen
    {
      zipOpen := false;
    }
  }
}
