/** The budget shared by one analysis. */
module Metering {

  class Meter {
    var records: nat
    var nodes: nat
    var inputBytes: nat
    var failed: bool
    /** How many reads of the repository have been asked for. */
    ghost var asked: nat

    constructor (records: nat, nodes: nat, inputBytes: nat)
      ensures this.records == records && this.nodes == nodes && this.inputBytes == inputBytes
      ensures !failed && asked == 0
    {
      this.records, this.nodes, this.inputBytes, this.failed := records, nodes, inputBytes, false;
      this.asked := 0;
    }

    method Input(n: nat) returns (ok: bool)
      modifies this`inputBytes, this`failed
      ensures ok <==> n <= old(inputBytes)
      ensures inputBytes == (if ok then old(inputBytes) - n else old(inputBytes))
      ensures failed <==> old(failed) || !ok
    {
      ok := n <= inputBytes;
      if ok {
        inputBytes := inputBytes - n;
      } else {
        failed := true;
      }
    }

    method Records(n: nat) returns (ok: bool)
      modifies this`records, this`failed
      ensures ok <==> n <= old(records)
      ensures records == (if ok then old(records) - n else old(records))
      ensures failed <==> old(failed) || !ok
    {
      ok := n <= records;
      if ok {
        records := records - n;
      } else {
        failed := true;
      }
    }

    method Node() returns (ok: bool)
      modifies this`nodes, this`failed
      ensures ok <==> old(nodes) != 0
      ensures nodes == (if ok then old(nodes) - 1 else old(nodes))
      ensures failed <==> old(failed) || !ok
    {
      ok := nodes != 0;
      if ok {
        nodes := nodes - 1;
      } else {
        failed := true;
      }
    }
  }
}
