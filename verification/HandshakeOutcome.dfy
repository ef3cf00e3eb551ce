// What a handshake has moved when the target's call returns. The handshake machines prove it for all interleavings, and
// the target's side of the bus relies on it.
module HandshakeOutcomes {
  import opened Basics

  // The number of bytes that are not those of the host.
  function Wrong(bytes: seq<Byte>, host: seq<Byte>): nat
    requires |bytes| <= |host|
  {
    if bytes == [] then 0
    else
      var k := |bytes| - 1;
      Wrong(bytes[..k], host) + if bytes[k] == host[k] then 0 else 1
  }

  // The bytes are the next ones of the host, except for at most one wrong byte for each fault.
  predicate Heard(bytes: seq<Byte>, host: seq<Byte>, faults: int) {
    |bytes| <= |host| && Wrong(bytes, host) <= faults
  }

  // A call has sent a number of bytes and these have arrived; faults are the waits that were given up.
  predicate SendOutcome(buf: seq<Byte>, sent: nat, arrived: seq<Byte>, faults: nat) {
    && sent <= |arrived| <= sent + 1 && arrived <= buf
    && (sent < |buf| ==> faults > 0)
  }

  // A call has received bytes of the host, all that it asked for unless there was a fault. With a fault the last one
  // may be wrong, because the initiator has given up its wait and reused the data lines before the target has read
  // them.
  predicate ReceiveOutcome(host: seq<Byte>, count: nat, data: seq<Byte>, faults: nat) {
    && |data| <= count && |data| <= |host|
    && (|data| < count ==> faults > 0)
    && (data <= host || (faults > 0 && data != [] && data[..|data| - 1] <= host))
  }

  // An initiator that has sent no more than a part of its bytes
  lemma PartOfHost(host: seq<Byte>, n: nat, count: nat, data: seq<Byte>, faults: nat)
    requires n <= |host| && ReceiveOutcome(host[..n], count, data, faults)
    ensures ReceiveOutcome(host, count, data, faults)
  {
  }

  lemma {:induction false} NothingWrong(bytes: seq<Byte>, host: seq<Byte>)
    requires |bytes| <= |host|
    ensures Wrong(bytes, host) == 0 <==> bytes <= host
    decreases |bytes|
  {
    if bytes != [] {
      var k := |bytes| - 1;
      NothingWrong(bytes[..k], host);
      assert bytes == bytes[..k] + [bytes[k]];
    }
  }

  // An outcome has at most one wrong byte, and none without a fault.
  lemma OutcomeIsHeard(host: seq<Byte>, count: nat, data: seq<Byte>, faults: nat)
    requires ReceiveOutcome(host, count, data, faults)
    ensures Heard(data, host, faults)
  {
    if data <= host {
      NothingWrong(data, host);
    } else {
      NothingWrong(data[..|data| - 1], host);
    }
  }

  lemma {:induction false} WrongAdds(a: seq<Byte>, b: seq<Byte>, host: seq<Byte>)
    requires |a| + |b| <= |host|
    ensures Wrong(a + b, host) == Wrong(a, host) + Wrong(b, host[|a|..])
    decreases |b|
  {
    if b == [] {
      assert a + b == a;
    } else {
      var k := |b| - 1;
      WrongAdds(a, b[..k], host);
      assert (a + b)[..|a| + k] == a + b[..k];
    }
  }

  // Receiving goes on.
  lemma HeardGrows(a: seq<Byte>, b: seq<Byte>, host: seq<Byte>, faults: int, more: int)
    requires Heard(a, host, faults) && Heard(b, host[|a|..], more)
    ensures Heard(a + b, host, faults + more)
  {
    WrongAdds(a, b, host);
  }

  lemma {:induction false} WrongOfPart(bytes: seq<Byte>, host: seq<Byte>, n: nat)
    requires n <= |bytes| <= |host|
    ensures Wrong(bytes[..n], host) <= Wrong(bytes, host)
    decreases |bytes|
  {
    if n < |bytes| {
      var k := |bytes| - 1;
      WrongOfPart(bytes[..k], host, n);
      assert bytes[..k][..n] == bytes[..n];
    } else {
      assert bytes[..n] == bytes;
    }
  }

  lemma PartIsHeard(bytes: seq<Byte>, host: seq<Byte>, faults: int, n: nat)
    requires Heard(bytes, host, faults) && n <= |bytes|
    ensures Heard(bytes[..n], host, faults)
  {
    WrongOfPart(bytes, host, n);
  }

  // Without faults nothing is wrong.
  lemma HeardWithoutFaults(bytes: seq<Byte>, host: seq<Byte>)
    ensures Heard(bytes, host, 0) <==> bytes <= host
  {
    if |bytes| <= |host| {
      NothingWrong(bytes, host);
    }
  }
}
