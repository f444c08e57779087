/** Reading a manifest file into a buffer that never grows past its limit. */
module ManifestRead {
  import opened GoNumbers

  const MAX_MANIFEST_BYTES: nat := 0x10_0000
  const READ_LIMIT: nat := 0x10_0001
  const INITIAL_CAPACITY: nat := 0x1000
  const CHUNK: nat := 0x8000

  datatype ReadError = NoError | EndOfFile | Failure

  // One reply of the reader: how many bytes it claims, the bytes, and its error.
  datatype Reply = Reply(count: int, bytes: seq<byte>, error: ReadError)

  datatype Outcome = Data(bytes: seq<byte>) | TooLarge | InvalidCount | ReadFailed | NoProgress | Canceled

  // ---- The buffer ---------------------------------------------------------------------

  class Buffer {
    var store: array<byte>
    var length: nat

    ghost predicate Valid()
      reads this
    {
      length <= store.Length <= READ_LIMIT
    }

    function Contents(): seq<byte>
      requires Valid()
      reads this, store
    {
      store[..length]
    }

    constructor (capacity: nat)
      requires capacity <= READ_LIMIT
      ensures Valid() && Contents() == [] && fresh(store)
    {
      store := new byte[capacity](_ => 0);
      length := 0;
    }

    /** Copy into the spare room of the store. */
    method CopyIn(addition: seq<byte>)
      requires Valid() && length + |addition| <= store.Length
      modifies this`length, store
      ensures Valid() && store == old(store) && Contents() == old(Contents()) + addition
    {
      ghost var before := Contents();
      for i := 0 to |addition|
        invariant length == old(length) && length + |addition| <= store.Length
        invariant store[..length] == before
        invariant store[length..length + i] == addition[..i]
      {
        store[length + i] := addition[i];
        assert store[length..length + i + 1] == store[length..length + i] + [store[length + i]];
      }
      assert store[..length + |addition|] == store[..length] + store[length..length + |addition|];
      length := length + |addition|;
    }

    /** appendManifestBytesWithinLimit: grow by doubling, but never past the limit. */
    method Append(addition: seq<byte>)
      requires Valid() && length + |addition| <= READ_LIMIT
      modifies this, store
      ensures Valid() && Contents() == old(Contents()) + addition
      ensures store == old(store) || fresh(store)
    {
      var required := length + |addition|;
      if required > store.Length {
        var capacity := store.Length * 2;
        if capacity < required {
          capacity := required;
        }
        if capacity > READ_LIMIT {
          capacity := READ_LIMIT;
        }
        var grown := new byte[capacity](_ => 0);
        for i := 0 to length
          modifies grown
          invariant grown[..i] == store[..i]
        {
          grown[i] := store[i];
        }
        store := grown;
      }
      CopyIn(addition);
    }
  }

  // ---- What reading means -----------------------------------------------------------------

  function Request(got: nat): nat
    requires got <= MAX_MANIFEST_BYTES
  {
    Min(CHUNK, READ_LIMIT - got)
  }

  /** The outcome of reading from the i-th reply on, with `data` read so far. */
  ghost function ReadFrom(replies: nat -> Reply, canceled: nat -> bool, i: nat, data: seq<byte>): Outcome
    requires |data| <= MAX_MANIFEST_BYTES
    decreases READ_LIMIT - |data|
  {
    var r := replies(i);
    if canceled(i) then Canceled
    else if r.count != |r.bytes| || r.count > Request(|data|) then InvalidCount
    else if |data| + r.count > MAX_MANIFEST_BYTES then TooLarge
    else if r.error.EndOfFile? then Data(data + r.bytes)
    else if r.error.Failure? then ReadFailed
    else if r.count == 0 then NoProgress
    else ReadFrom(replies, canceled, i + 1, data + r.bytes)
  }

  /** readManifestBytes. A count that disagrees with the bytes stands for one outside the request. */
  method ReadManifestBytes(replies: nat -> Reply, canceled: nat -> bool) returns (out: Outcome)
    ensures out == ReadFrom(replies, canceled, 0, [])
  {
    var data := new Buffer(INITIAL_CAPACITY);
    var turn := 0;
    while true
      invariant fresh(data) && fresh(data.store) && data.Valid() && data.length <= MAX_MANIFEST_BYTES
      invariant ReadFrom(replies, canceled, 0, []) == ReadFrom(replies, canceled, turn, data.Contents())
      decreases READ_LIMIT - data.length
    {
      if canceled(turn) {
        return Canceled;
      }
      var remaining := READ_LIMIT - data.length;
      if remaining <= 0 {
        assert false;
      }
      var request := CHUNK;
      if request > remaining {
        request := remaining;
      }
      var reply := replies(turn);
      if reply.count != |reply.bytes| || reply.count > request {
        return InvalidCount;
      }
      ghost var before := data.Contents();
      if reply.count > 0 {
        data.Append(reply.bytes);
        if data.length > MAX_MANIFEST_BYTES {
          return TooLarge;
        }
      }
      assert data.Contents() == before + reply.bytes;
      if reply.error.EndOfFile? {
        return Data(data.Contents());
      }
      if reply.error.Failure? {
        return ReadFailed;
      }
      if reply.count == 0 {
        return NoProgress;
      }
      turn := turn + 1;
    }
  }

  // ---- A reader that delivers a file ------------------------------------------------------

  /** From the i-th reply on the reader delivers `content`, in pieces of any size, and then ends. */
  ghost predicate Delivers(replies: nat -> Reply, i: nat, got: nat, content: seq<byte>)
    requires got <= MAX_MANIFEST_BYTES
    decreases |content|
  {
    var r := replies(i);
    && r.count == |r.bytes| <= Request(got)
    && r.bytes <= content && !r.error.Failure?
    && (r.error.EndOfFile? ==> r.bytes == content)
    && (r.error.NoError? ==>
          && 0 < r.count
          && (got + r.count <= MAX_MANIFEST_BYTES ==> Delivers(replies, i + 1, got + r.count, content[r.count..])))
  }

  /** However the reader cuts it up, a file that fits is read exactly, and one that does not is refused. */
  lemma {:induction false} ReadsExactly(replies: nat -> Reply, canceled: nat -> bool, i: nat, data: seq<byte>, content: seq<byte>)
    requires |data| <= MAX_MANIFEST_BYTES && Delivers(replies, i, |data|, content)
    requires forall k: nat :: !canceled(k)
    ensures ReadFrom(replies, canceled, i, data)
         == if |data| + |content| <= MAX_MANIFEST_BYTES then Data(data + content) else TooLarge
    decreases |content|
  {
    var r := replies(i);
    if r.error.NoError? && |data| + r.count <= MAX_MANIFEST_BYTES {
      ReadsExactly(replies, canceled, i + 1, data + r.bytes, content[r.count..]);
      assert content == r.bytes + content[r.count..];
      assert data + content == (data + r.bytes) + content[r.count..];
    }
  }

  /** Nothing longer than the limit is ever returned, whatever the reader does. */
  lemma {:induction false} NeverTooLong(replies: nat -> Reply, canceled: nat -> bool, i: nat, data: seq<byte>)
    requires |data| <= MAX_MANIFEST_BYTES
    ensures var out := ReadFrom(replies, canceled, i, data);
      out.Data? ==> |out.bytes| <= MAX_MANIFEST_BYTES && data <= out.bytes
    decreases READ_LIMIT - |data|
  {
    var r := replies(i);
    if ReadFrom(replies, canceled, i, data).Data? && r.error.NoError? {
      NeverTooLong(replies, canceled, i + 1, data + r.bytes);
    }
  }

  // ---- The reply at which reading stops -------------------------------------------------------

  /** The bytes of the first `k` replies. */
  ghost function Gathered(replies: nat -> Reply, k: nat): seq<byte> {
    if k == 0 then [] else Gathered(replies, k - 1) + replies(k - 1).bytes
  }

  /** The k-th reply keeps the promise of a reader: at most as many bytes as there is room for. */
  ghost predicate Honest(replies: nat -> Reply, k: nat) {
    replies(k).count == |replies(k).bytes| && replies(k).count <= 32 * 1024 && |Gathered(replies, k)| + replies(k).count <= 1024 * 1024 + 1
  }

  /** Reading goes on after the k-th reply: it brings some bytes, no error, and not too many in all. */
  ghost predicate GoesOn(replies: nat -> Reply, canceled: nat -> bool, k: nat) {
    && !canceled(k) && Honest(replies, k) && replies(k).error.NoError? && 0 < replies(k).count
    && |Gathered(replies, k + 1)| <= 1024 * 1024
  }

  lemma {:induction false} ReadsOn(replies: nat -> Reply, canceled: nat -> bool, k: nat)
    requires forall j: nat :: j < k ==> GoesOn(replies, canceled, j)
    ensures |Gathered(replies, k)| <= MAX_MANIFEST_BYTES
    ensures ReadFrom(replies, canceled, 0, []) == ReadFrom(replies, canceled, k, Gathered(replies, k))
  {
    if k > 0 {
      ReadsOn(replies, canceled, k - 1);
      assert GoesOn(replies, canceled, k - 1);
    }
  }

  /** The first reply after which reading does not go on decides how it ends. */
  lemma StopsAt(replies: nat -> Reply, canceled: nat -> bool, k: nat)
    requires forall j: nat :: j < k ==> GoesOn(replies, canceled, j)
    requires !GoesOn(replies, canceled, k)
    ensures
      var out, r := ReadFrom(replies, canceled, 0, []), replies(k);
      var fits := !canceled(k) && Honest(replies, k) && |Gathered(replies, k + 1)| <= 1024 * 1024;
      && (out == Canceled <==> canceled(k))
      && (out == InvalidCount <==> !canceled(k) && !Honest(replies, k))
      && (out == TooLarge <==> !canceled(k) && Honest(replies, k) && |Gathered(replies, k + 1)| > 1024 * 1024)
      && (out.Data? <==> fits && r.error.EndOfFile?) && (out.Data? ==> out.bytes == Gathered(replies, k + 1))
      && (out == ReadFailed <==> fits && r.error.Failure?)
      && (out == NoProgress <==> fits && r.error.NoError?)
  {
    ReadsOn(replies, canceled, k);
  }
}
