/** The read command, from the RPC to the printed thread. */
module CommandLine {
  import opened Primitives
  import opened Records
  import opened Threads
  import opened Printer
  import opened Server

  /** The client side of the read RPC: parses every chirp of the reply. */
  method SendReadRequest(server: ServiceImpl, id: uint64) returns (code: ReturnCode, chirps: seq<ClientChirp>)
    requires server.Valid()
    modifies server.service.connect.client.store
    ensures server.Valid() && server.St() == old(server.St())
    ensures if id in server.St().chirps
            then code == OK && chirps == ClientViews(server.St(), Preorder(server.St(), id))
            else code == CHIRP_ID_NOT_FOUND && chirps == []
  {
    Uint64BinaryBijection(id, []);
    var reply;
    code, reply := server.ReadRpc(Uint64ToBinary(id));
    if code == OK {
      GrpcToClientViews(server.St(), Preorder(server.St(), id));
    }
    chirps := Parse(reply.chirps);
  }

  method Parse(replies: seq<GrpcChirp>) returns (chirps: seq<ClientChirp>)
    requires forall i :: 0 <= i < |replies| ==> |replies[i].id| >= 8 && |replies[i].parentId| >= 8
    ensures |chirps| == |replies|
    ensures forall i :: 0 <= i < |replies| ==> chirps[i] == GrpcChirpToClientChirp(replies[i])
  {
    chirps := [];
    for n := 0 to |replies|
      invariant |chirps| == n
      invariant forall i :: 0 <= i < n ==> chirps[i] == GrpcChirpToClientChirp(replies[i])
    {
      chirps := chirps + [GrpcChirpToClientChirp(replies[n])];
    }
  }

  /** The read command prints the whole thread, each chirp indented by its depth, or nothing. */
  method Read(server: ServiceImpl, id: uint64) returns (code: ReturnCode, output: seq<Printed>)
    requires server.Valid()
    modifies server.service.connect.client.store
    ensures server.Valid() && server.St() == old(server.St())
    ensures id !in server.St().chirps ==> code == CHIRP_ID_NOT_FOUND && output == []
    ensures id in server.St().chirps ==>
      var (st, ids) := (server.St(), Preorder(server.St(), id));
      && code == OK && |output| == |ids|
      && forall i :: 0 <= i < |ids| ==>
           Shows(output[i].chirp, st.chirps[ids[i]]) && PaddingOk(st, id, ids[i], output[i].padding)
  {
    var chirps;
    code, chirps := SendReadRequest(server, id);
    output := [];
    if code == OK {
      PrintedThreadHasDepths(server.St(), id);
      ClientViewsShow(server.St(), Preorder(server.St(), id));
      output := PrintChirps(chirps);
    }
  }
}
