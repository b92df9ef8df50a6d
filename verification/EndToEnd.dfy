/**
 Messages from one process to another: the codec writes frames into a connection
 (IMServer/net/protobuf/ProtobufCodecLite.cc, send), the connection hands bytes to the kernel as it
 can take them, and the peer's codec reads them in whatever pieces arrive.
 */
module EndToEnd {
  import opened Bytes
  import opened Codec
  import T = TcpConnection

  /** The byte strings that send accepted in a run, in order. */
  function AcceptedData(c: T.Conn, es: seq<T.Event>, cb: T.Callbacks): seq<bytes>
    requires T.Legal(c, es, cb)
    decreases |es|
  {
    if es == [] then []
    else
      (if es[0].Sent? && c.state.Connected? then [es[0].data] else [])
      + AcceptedData(T.Step(c, es[0], cb), es[1..], cb)
  }

  function Frames<M>(codec: Codec<M>, ms: seq<M>): seq<bytes> {
    if ms == [] then [] else [codec.Encode(ms[0])] + Frames(codec, ms[1..])
  }

  lemma {:induction false} FlattenFrames<M>(codec: Codec<M>, ms: seq<M>)
    ensures Flatten(Frames(codec, ms)) == codec.EncodeAll(ms)
  {
    if ms == [] {
    } else {
      FlattenFrames(codec, ms[1..]);
      assert Frames(codec, ms)[1..] == Frames(codec, ms[1..]);
    }
  }

  lemma {:induction false} AcceptedIsData(c: T.Conn, es: seq<T.Event>, cb: T.Callbacks)
    requires T.Legal(c, es, cb)
    ensures T.Run(c, es, cb).accepted == c.accepted + Flatten(AcceptedData(c, es, cb))
    decreases |es|
  {
    if es == [] {
    } else {
      var d := T.Step(c, es[0], cb);
      var rest := AcceptedData(d, es[1..], cb);
      AcceptedIsData(d, es[1..], cb);
      if es[0].Sent? && c.state.Connected? {
        assert ([es[0].data] + rest)[1..] == rest;
        assert d.accepted == c.accepted + es[0].data;
      } else {
        assert AcceptedData(c, es, cb) == rest;
        assert d.accepted == c.accepted;
      }
    }
  }

  /**
   Whatever the kernel took so far, and however it arrives, the peer delivers a prefix of the
   messages, reports no error, and once it has read up to the half-close it has delivered them all
   and holds no stray byte.
   */
  lemma Delivered<M(!new)>(codec: Codec<M>, ms: seq<M>, es: seq<T.Event>, cb: T.Callbacks, chunks: seq<bytes>)
    requires Inverse(codec) && NoRawCallback(codec) && forall m | m in ms :: codec.Fits(m)
    requires T.Legal(T.INITIAL, es, cb) && T.NeverDrops(T.INITIAL, es, cb)
    requires AcceptedData(T.INITIAL, es, cb) == Frames(codec, ms)
    requires Flatten(chunks) <= T.Run(T.INITIAL, es, cb).written
    ensures codec.Feed([], chunks).messages <= ms && codec.Feed([], chunks).error == NoError
    ensures var c := T.Run(T.INITIAL, es, cb);
            c.shutdowns == 1 && Flatten(chunks) == c.written ==> codec.Feed([], chunks) == Outcome(ms, [], NoError)
  {
    hide Codec.Drain, T.Run, T.Legal, T.NeverDrops, AcceptedData;
    var c := T.Run(T.INITIAL, es, cb);
    T.ShutdownAfterLastByte(es, cb);
    AcceptedIsData(T.INITIAL, es, cb);
    FlattenFrames(codec, ms);
    assert c.accepted == codec.EncodeAll(ms);
    var arrived := Flatten(chunks);
    PrefixDelivers(codec, ms, arrived);
    if chunks != [] {
      FeedIsDrain(codec, [], chunks);
      assert [] + arrived == arrived;
    }
    if c.shutdowns == 1 && arrived == c.written {
      RoundTrip(codec, ms, chunks);
    }
  }
}
