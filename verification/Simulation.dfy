/** The debug backend stands in for the real one: the service layer cannot tell them apart. */
module Simulation {
  import opened Primitives
  import opened Records
  import opened Model
  import opened Runs
  import opened Client
  import opened Server

  /** Any sequence of calls, from the empty store, is answered alike over either backend: as the
      typed model answers it. */
  method RunOnBothBackends(codec: Codec, ops: seq<Op>) returns (standard: seq<Reply>, debug: seq<Reply>)
    requires codec.Faithful() && |ops| < UINT64_LIMIT
    ensures Room(INITIAL, |ops|)
    ensures standard == debug == Replies(INITIAL, ops)
  {
    InitialInv();
    var remote := new ServiceImpl(codec, Standard);
    standard := remote.PerformAll(ops);
    var local := new ServiceImpl(codec, ClientKind.Debug);
    debug := local.PerformAll(ops);
  }

  /** The stand-in is not perfect below the service layer: deleting a key that was only ever read
      succeeds on the debug backend and fails on the real one. DeleteChirp never does that. */
  method DeleteAfterRead(kind: ClientKind, key: Bytes) returns (ok: bool)
    ensures ok <==> kind.Debug?
  {
    var client := new BackendClient(kind);
    var _, values := client.SendGetRequest([key], []);
    assert key in [key];
    ok := client.SendDeleteKeyRequest(key);
  }
}
