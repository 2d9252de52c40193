/** The agent's bounded, durable buffer (internal/agent/spool.go), the push client that
    drains it (internal/agent/agent.go), and delivery over whole runs of both. */
module Spooling {
  import opened Common
  import opened Json
  import opened SpoolFormat

  const SPOOL_CAPACITY := 5000

  /** A tenth of the capacity, at least one. */
  function Slack(capacity: nat): nat {
    Max(1, capacity / 10)
  }

  /** The file overshoots its capacity by at most a tenth, but by at least one sample. */
  lemma SlackIsATenth(capacity: nat)
    ensures 1 <= Slack(capacity) && (10 <= capacity ==> 10 * Slack(capacity) <= capacity < 10 * Slack(capacity) + 10)
    ensures capacity < 10 ==> Slack(capacity) == 1
  {}

  /** The samples a file holds; an absent file holds none. */
  function Held<S>(c: Codec<S>, file: Option<bytes>): seq<S> {
    if file.None? then [] else Decode(c, file.value)
  }

  /** The newest n samples. */
  function Newest<S>(samples: seq<S>, n: nat): seq<S> {
    if |samples| <= n then samples else samples[|samples|-n..]
  }

  /** What Append makes of the buffered samples. */
  function Pushed<S>(samples: seq<S>, s: S, capacity: nat): seq<S> {
    if |samples| + 1 > capacity + Slack(capacity) then Newest(samples + [s], capacity) else samples + [s]
  }

  lemma NothingHeld<S>(c: Codec<S>)
    ensures Decode(c, []) == []
  {}

  lemma PushedIs<S>(samples: seq<S>, s: S, capacity: nat)
    requires 1 <= capacity
    ensures |Pushed(samples, s, capacity)| <= capacity + Slack(capacity)
    ensures |samples| + 1 <= capacity + Slack(capacity) ==> Pushed(samples, s, capacity) == samples + [s]
    ensures |samples| + 1 > capacity + Slack(capacity) ==>
              |samples + [s]| > capacity && Pushed(samples, s, capacity) == (samples + [s])[|samples + [s]| - capacity..]
  {}

  class Spool<S(!new)> {
    const codec: Codec<S>
    const capacity: nat
    var file: Option<bytes>
    /** How many samples the file holds, or -1 for not yet known. */
    var count: int

    /** Opens whatever file is there. */
    constructor (codec: Codec<S>, file: Option<bytes>, capacity: int)
      requires Lawful(codec)
      ensures this.codec == codec && this.file == file && Valid()
      ensures this.capacity == if capacity < 1 then 5000 else capacity
    {
      this.codec, this.file, count := codec, file, -1;
      this.capacity := if capacity < 1 then SPOOL_CAPACITY else capacity;
    }

    ghost predicate Valid()
      reads this
    {
      Lawful(codec) && 1 <= capacity && (count == -1 || count == |Contents()|)
    }

    ghost function Contents(): seq<S>
      reads this
    {
      Held(codec, file)
    }

    /** writeLocked: an empty buffer removes the file. */
    method WriteLocked(samples: seq<S>)
      requires Valid() && forall s :: s in samples ==> codec.marshal(s).Some?
      modifies this
      ensures Valid() && Contents() == samples && count == |samples|
    {
      if |samples| == 0 {
        file, count := None, 0;
        return;
      }
      DecodedEncodes(codec, samples);
      WrittenDecodes(codec, samples);
      file := Encode(codec, samples);
      count := |samples|;
    }

    /** Append; it fails on a sample that cannot be encoded. */
    method Append(s: S) returns (ok: bool)
      requires Valid()
      modifies this
      ensures Valid()
      ensures ok <==> codec.marshal(s).Some?
      ensures !ok ==> file == old(file)
      ensures ok ==> Contents() == Pushed(old(Contents()), s, capacity) && count == |Contents()|
      ensures ok ==> |Contents()| <= capacity + Slack(capacity)
    {
      hide Decode, Lawful, Appendix, Slack, Pushed;
      if count < 0 {
        count := |Held(codec, file)|;
      }
      PushedIs(Contents(), s, capacity);
      var line := codec.marshal(s);
      if line.None? { return false; }
      var raw := if file.None? then [] else file.value;
      NothingHeld(codec);
      AppendDecodes(codec, raw, s, line.value);
      file := Some(raw + Appendix(raw, line.value));
      count := count + 1;
      if count > capacity + Slack(capacity) {
        var samples := Decode(codec, file.value);
        DecodeMarshals(codec, file.value);
        if |samples| > capacity {
          samples := samples[|samples|-capacity..];
        }
        WriteLocked(samples);
      }
      return true;
    }

    /** Up to n of the oldest samples. */
    method Peek(n: int) returns (samples: seq<S>)
      requires Valid()
      ensures samples == if 0 < n < |Contents()| then Contents()[..n] else Contents()
    {
      samples := Held(codec, file);
      if n > 0 && |samples| > n { samples := samples[..n]; }
    }

    /** Removes the oldest n samples. */
    method Commit(n: int)
      requires Valid()
      modifies this
      ensures Valid()
      ensures Contents() == old(Contents())[Min(Max(n, 0), |old(Contents())|)..]
      ensures n <= 0 ==> file == old(file)
    {
      if n <= 0 { return; }
      var samples := Held(codec, file);
      if file.Some? { DecodeMarshals(codec, file.value); }
      if n >= |samples| { WriteLocked([]); } else { WriteLocked(samples[n..]); }
    }

    /** Flush with the server's verdict on the batch: only an acknowledged batch is removed,
        and then the whole of it. Returns the batch that was pushed. */
    method Flush(batchSize: int, acknowledged: bool) returns (batch: seq<S>)
      requires Valid() && 1 <= batchSize
      modifies this
      ensures Valid()
      ensures batch == old(Contents())[..Min(batchSize, |old(Contents())|)]
      ensures Contents() == if acknowledged then old(Contents())[|batch|..] else old(Contents())
      ensures !acknowledged ==> file == old(file)
    {
      batch := Peek(batchSize);
      if |batch| == 0 || !acknowledged { return; }
      Commit(|batch|);
    }
  }
}
