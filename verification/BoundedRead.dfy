/** The bounded read loop of `read_confined_regular_file`. */
module BoundedRead {
  import opened Wrappers
  import opened Framing

  const CHUNK := 64 * 1024

  /** An open file whose content does not change while it is read. */
  class Descriptor {
    const content: Bytes
    var position: nat

    ghost predicate Valid()
      reads this
    {
      position <= |content|
    }

    constructor (content: Bytes)
      ensures Valid() && this.content == content && position == 0
    {
      this.content := content;
      position := 0;
    }

    /** `os.read`: at least one byte unless at the end of the file, and possibly fewer bytes
        than asked for. */
    method Read(n: nat) returns (chunk: Bytes)
      requires Valid() && n > 0
      modifies this
      ensures Valid() && |chunk| <= n
      ensures position == old(position) + |chunk|
      ensures chunk == content[old(position)..position]
      ensures chunk == [] <==> old(position) == |content|
    {
      var available := |content| - position;
      var most := if available < n then available else n;
      var k: nat := 0;
      if most > 0 {
        k :| 1 <= k <= most;
      }
      chunk := content[position..position + k];
      position := position + k;
    }
  }

  datatype ReadError = NegativeLimit | TooLong

  function Join(chunks: seq<Bytes>): Bytes
    decreases |chunks|
  {
    if chunks == [] then [] else Join(chunks[..|chunks| - 1]) + chunks[|chunks| - 1]
  }

  function Min(a: int, b: int): int {
    if a < b then a else b
  }

  /** Whatever short reads occur, the whole content is returned when it fits, and nothing
      else is ever returned. */
  method ReadBounded(file: Descriptor, maxBytes: int) returns (r: Result<Bytes, ReadError>)
    requires file.Valid() && file.position == 0
    modifies file
    ensures r == if maxBytes < 0 then Err(NegativeLimit)
                 else if |file.content| <= maxBytes then Ok(file.content)
                 else Err(TooLong)
    ensures maxBytes >= 0 ==> file.position <= maxBytes + 1
  {
    if maxBytes < 0 {
      return Err(NegativeLimit);
    }
    var chunks: seq<Bytes> := [];
    var remaining: int := maxBytes + 1;
    while remaining != 0
      invariant file.Valid() && remaining >= 0
      invariant Join(chunks) == file.content[..file.position]
      invariant |Join(chunks)| + remaining == maxBytes + 1
      decreases remaining
    {
      var chunk := file.Read(Min(CHUNK, remaining));
      if chunk == [] {
        break;
      }
      assert (chunks + [chunk])[..|chunks|] == chunks;
      chunks := chunks + [chunk];
      remaining := remaining - |chunk|;
    }
    var payload := Join(chunks);
    assert file.content[..|file.content|] == file.content;
    if |payload| > maxBytes {
      return Err(TooLong);
    }
    return Ok(payload);
  }
}
