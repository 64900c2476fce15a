// The receive loop of the servers that have no inactivity handling of their own
// (src/ws2801_server.c, src/lpd8806_server.c, tcl_server.c, ws2801_server.c):
// `while (s >= 0 && opc_receive(s, handler, timeout));`.
module MainLoop {
  /** `results[k]` is what the k-th `opc_receive` call returns. The loop makes no call when
      the source could not be created; otherwise it keeps calling while calls return 1, and
      stops after the first call that returns 0. */
  method ReceiveWhileActive(sourceOk: bool, results: seq<bool>) returns (polls: nat)
    ensures !sourceOk ==> polls == 0
    ensures sourceOk ==> polls <= |results|
    ensures sourceOk ==> forall k :: 0 <= k < polls - 1 ==> results[k]
    ensures sourceOk ==> (polls == |results| && false !in results) || (0 < polls && !results[polls - 1])
  {
    polls := 0;
    if !sourceOk {
      return;
    }
    var active := true;
    while active && polls < |results|
      invariant polls <= |results|
      invariant forall k :: 0 <= k < polls - 1 ==> results[k]
      invariant active ==> forall k :: 0 <= k < polls ==> results[k]
      invariant !active ==> 0 < polls && !results[polls - 1]
      decreases |results| - polls, active
    {
      active := results[polls];
      polls := polls + 1;
    }
    if active {
      assert forall k :: 0 <= k < |results| ==> results[k];
    }
  }
}
