/** The ID numbers a client gives to its requests, each the start of a block of numbers for the request's packets. */
module RequestIds {
  const CID_OFFSET := 1000000
  const RID_OFFSET := 1000

  /** How many requests a client has numbers for. */
  const PERIOD := 998

  class Numbering {
    const client: nat
    var requestID: nat
    ghost var taken: nat

    /** The current number is that of request `taken`, counting from 0. */
    ghost predicate Valid()
      reads this
    {
      requestID == Number(client, taken)
    }

    constructor (client: nat)
      ensures Valid() && this.client == client && taken == 0
    {
      this.client, requestID, taken := client, CID_OFFSET * client + RID_OFFSET * 1, 0;
    }

    /** The number for the next request; numbers start again before they reach the next client's. */
    method Take() returns (id: nat)
      requires Valid()
      modifies this
      ensures Valid() && id == Number(client, old(taken)) && taken == old(taken) + 1
    {
      id := requestID;
      InBlock(client, taken);
      requestID := requestID + RID_OFFSET;
      Wraps(client, taken % PERIOD + 2);
      if requestID % CID_OFFSET >= CID_OFFSET - RID_OFFSET {
        requestID := CID_OFFSET * client + RID_OFFSET * 1;
      }
      taken := taken + 1;
    }
  }

  function Number(client: nat, n: nat): nat {
    CID_OFFSET * client + RID_OFFSET * (n % PERIOD + 1)
  }

  lemma InBlock(client: nat, n: nat)
    ensures Number(client, n) % RID_OFFSET == 0
    ensures Number(client, n) / CID_OFFSET == client
  {
  }

  lemma Wraps(client: nat, k: nat)
    requires k < CID_OFFSET / RID_OFFSET
    ensures (CID_OFFSET * client + RID_OFFSET * k) % CID_OFFSET == RID_OFFSET * k
  {
  }

  /** The blocks of two requests are different, unless they are of one client and a whole number of periods apart.  So
      no two of a client's requests share numbers while fewer than a period of others have come in between. */
  lemma BlocksDiffer(client: nat, n: nat, other: nat, m: nat)
    ensures Number(client, n) == Number(other, m) <==> client == other && n % PERIOD == m % PERIOD
    ensures n < m < n + PERIOD ==> Number(client, n) != Number(client, m)
  {
    InBlock(client, n);
    InBlock(other, m);
  }
}
