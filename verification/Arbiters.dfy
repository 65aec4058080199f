/** rtl/MMUTests.v: the pointer multiplexers and round-robin arbiters of the walkers. */
module Arbiters {
  predicate Any(b: seq<bool>)
    requires |b| == 4
  {
    b[0] || b[1] || b[2] || b[3]
  }

  /** enq_ptr and deq_ptr: the lowest index that is set, 3 if none is. */
  function Pick(b: seq<bool>): (i: nat)
    requires |b| == 4
    ensures i < 4 && (Any(b) ==> b[i]) && forall j :: 0 <= j < i ==> !b[j]
  {
    if b[0] then 0 else if b[1] then 1 else if b[2] then 2 else 3
  }

  /** io_chosen of RRArbiter: the first valid input after the last one granted, going round. */
  function Chosen(valid: seq<bool>, lastGrant: nat): (i: nat)
    requires |valid| == 4
    ensures i < 4 && (valid[i] <==> Any(valid))
  {
    if valid[1] && 1 > lastGrant then 1
    else if valid[2] && 2 > lastGrant then 2
    else if valid[3] && 3 > lastGrant then 3
    else if valid[0] then 0
    else if valid[1] then 1
    else if valid[2] then 2
    else 3
  }

  /** lastGrant after a cycle. */
  function Granted(valid: seq<bool>, lastGrant: nat, ready: bool): (g: nat)
    requires |valid| == 4
    ensures lastGrant < 4 ==> g < 4
  {
    if ready && valid[Chosen(valid, lastGrant)] then Chosen(valid, lastGrant) else lastGrant
  }

  ghost predicate AtMostOne(b: seq<bool>)
  {
    forall i, j :: 0 <= i < j < |b| ==> !(b[i] && b[j])
  }

  /** The priority pointer names the arbiter's choice whatever was granted last exactly if at
      most one input is valid: the walkers clear one and send the other. */
  lemma PointersAgree(valid: seq<bool>)
    requires |valid| == 4
    ensures AtMostOne(valid) <==> forall g: nat :: g < 4 ==> Chosen(valid, g) == Pick(valid)
  {
    if forall g: nat :: g < 4 ==> Chosen(valid, g) == Pick(valid) {
      forall g: nat | g < 4 ensures Chosen(valid, g) == Pick(valid) {}
      assert Chosen(valid, 0) == Chosen(valid, 1) == Chosen(valid, 2) == Chosen(valid, 3);
    }
  }

  /** How many inputs come before i in the round that starts after lastGrant. */
  function Distance(i: nat, lastGrant: nat): (d: nat)
    requires i < 4 && lastGrant < 4
    ensures d < 4
  {
    (i + 3 - lastGrant) % 4
  }

  lemma OtherGrantIsCloser(valid: seq<bool>, lastGrant: nat, i: nat)
    requires |valid| == 4 && lastGrant < 4 && i < 4 && valid[i] && Chosen(valid, lastGrant) != i
    ensures Distance(i, Chosen(valid, lastGrant)) < Distance(i, lastGrant)
  {
  }

  /** lastGrant after a number of cycles. */
  function GrantedAfter(valids: seq<seq<bool>>, readys: seq<bool>, lastGrant: nat): (g: nat)
    requires |valids| == |readys| && lastGrant < 4 && forall k :: 0 <= k < |valids| ==> |valids[k]| == 4
    ensures g < 4
  {
    if valids == [] then lastGrant
    else var n := |valids| - 1; Granted(valids[n], GrantedAfter(valids[..n], readys[..n], lastGrant), readys[n])
  }

  /** How many of the cycles grant somebody. */
  function Grants(valids: seq<seq<bool>>, readys: seq<bool>): nat
    requires |valids| == |readys| && forall k :: 0 <= k < |valids| ==> |valids[k]| == 4
  {
    if valids == [] then 0
    else var n := |valids| - 1; Grants(valids[..n], readys[..n]) + if readys[n] && Any(valids[n]) then 1 else 0
  }

  /** Bounded waiting: an input that is held valid and not granted has seen at most three grants. */
  lemma {:induction false} BoundedWaiting(valids: seq<seq<bool>>, readys: seq<bool>, lastGrant: nat, i: nat)
    requires |valids| == |readys| && lastGrant < 4 && i < 4
    requires forall k :: 0 <= k < |valids| ==> |valids[k]| == 4 && valids[k][i]
    requires forall k :: 0 <= k < |valids| && readys[k] ==>
      Chosen(valids[k], GrantedAfter(valids[..k], readys[..k], lastGrant)) != i
    ensures Grants(valids, readys) + Distance(i, GrantedAfter(valids, readys, lastGrant)) <= Distance(i, lastGrant) <= 3
  {
    if valids != [] {
      var n := |valids| - 1;
      forall k | 0 <= k < n && readys[..n][k]
        ensures Chosen(valids[..n][k], GrantedAfter(valids[..n][..k], readys[..n][..k], lastGrant)) != i
      {
        assert valids[..n][..k] == valids[..k] && readys[..n][..k] == readys[..k];
      }
      BoundedWaiting(valids[..n], readys[..n], lastGrant, i);
      var g := GrantedAfter(valids[..n], readys[..n], lastGrant);
      if readys[n] { OtherGrantIsCloser(valids[n], g, i); }
    }
  }
}
