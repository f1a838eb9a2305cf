/** What the two network daemons (net/output.c, net/input.c) share: the
    page they exchange with the network server (nsipcbuf, a union Nsipc whose
    jif_pkt holds jp_len and then jp_data), the system calls they issue as a
    trace, and the retry-while-busy loop both run against a driver. The
    driver (e1000_tx, e1000_rx) is not part of this model: its answers are a
    sequence of results, consumed one per call that reaches it. */
module Ns {
  import opened Inc
  import opened KernelState

  /** The calls a daemon makes whose effect lies outside its own address
      space: sys_tx_packet, sys_rx_packet, sys_yield, and ipc_send (va 0 is
      the NULL page). */
  datatype Event =
    | Tx(addr: nat, size: int)
    | Rx(addr: nat)
    | Yield
    | Send(to: EnvId, value: int, va: nat, perm: bv32)

  /** How a daemon's loop body ended: done, in panic with the code it
      printed, or still retrying when the driver's results ran out. */
  datatype Outcome = Served | Panicked(rc: int) | Starved

  /** The address of byte i of nsipcbuf.pkt.jp_data. */
  function PacketAt(i: nat): (addr: nat)
    ensures addr > 0 && addr == NSIPCBUF + JP_DATA + i
  {
    NSIPCBUF + JP_DATA + i
  }

  /** How a retry loop over results rs ended: after `used` results, with the
      first one that was not `busy`, or with none when every result was. */
  datatype Attempts = Attempts(used: nat, last: Option<int>)

  /** The retry loop's result over the results rs. */
  function Retry(busy: int, rs: seq<int>): (a: Attempts)
    ensures a.used <= |rs|
  {
    if rs == [] then Attempts(0, None)
    else if rs[0] != busy then Attempts(1, Some(rs[0]))
    else
      var a := Retry(busy, rs[1..]);
      Attempts(a.used + 1, a.last)
  }

  /** The retry loop stops at the first result other than busy, after only
      busy ones, and it consumes everything when all are busy. */
  lemma {:induction false} RetryMeans(busy: int, rs: seq<int>)
    ensures var a := Retry(busy, rs);
      && (forall j :: 0 <= j < a.used - 1 ==> rs[j] == busy)
      && (a.last.Some? ==> 0 < a.used && rs[a.used - 1] == a.last.value && a.last.value != busy)
      && (a.last.None? <==> forall j :: 0 <= j < |rs| ==> rs[j] == busy)
      && (a.last.None? ==> a.used == |rs|)
  {
    if rs != [] && rs[0] == busy {
      RetryMeans(busy, rs[1..]);
      var a := Retry(busy, rs[1..]);
      assert forall j :: 0 <= j < a.used - 1 ==> rs[1..][j] == rs[j + 1];
      assert (forall j :: 0 <= j < |rs[1..]| ==> rs[1..][j] == busy) ==> forall j :: 0 <= j < |rs| ==> rs[j] == busy by {
        if forall j :: 0 <= j < |rs[1..]| ==> rs[1..][j] == busy {
          forall j | 0 <= j < |rs| ensures rs[j] == busy {
            if j > 0 {
              assert rs[j] == rs[1..][j - 1];
            }
          }
        }
      }
    }
  }

  /** The calls of the first n attempts of a retry loop: each attempt is
      `call`, followed by sys_yield when it was answered `busy`. */
  function Tries(call: Event, busy: int, rs: seq<int>, n: nat): seq<Event>
    requires n <= |rs|
  {
    if n == 0 then []
    else Tries(call, busy, rs, n - 1) + [call] + (if rs[n - 1] == busy then [Yield] else [])
  }

  /** Only the call and sys_yield are made: first the call, and last a
      sys_yield exactly when the last answer was busy. */
  lemma {:induction false} TriesShape(call: Event, busy: int, rs: seq<int>, n: nat)
    requires n <= |rs| && call != Yield
    ensures var t := Tries(call, busy, rs, n);
      && (forall e :: e in t ==> e == call || e == Yield)
      && (n > 0 ==> |t| > 0 && t[0] == call)
      && (n > 0 ==> (t[|t| - 1] == Yield <==> rs[n - 1] == busy))
  {
    if n > 0 {
      TriesShape(call, busy, rs, n - 1);
    }
  }

  /** Exactly n calls are made in n attempts. */
  function Calls(t: seq<Event>, call: Event): nat {
    if t == [] then 0 else Calls(t[..|t| - 1], call) + (if t[|t| - 1] == call then 1 else 0)
  }

  lemma {:induction false} CallsAppend(t: seq<Event>, u: seq<Event>, call: Event)
    ensures Calls(t + u, call) == Calls(t, call) + Calls(u, call)
    decreases |u|
  {
    if u == [] {
      assert t + u == t;
    } else {
      assert (t + u)[..|t + u| - 1] == t + u[..|u| - 1];
      CallsAppend(t, u[..|u| - 1], call);
    }
  }

  /** Each attempt calls once: the same call is made exactly n times. */
  lemma {:induction false} TriesCalls(call: Event, busy: int, rs: seq<int>, n: nat)
    requires n <= |rs| && call != Yield
    ensures Calls(Tries(call, busy, rs, n), call) == n
  {
    if n > 0 {
      TriesCalls(call, busy, rs, n - 1);
      var y: seq<Event> := if rs[n - 1] == busy then [Yield] else [];
      CallsAppend(Tries(call, busy, rs, n - 1), [call], call);
      CallsAppend(Tries(call, busy, rs, n - 1) + [call], y, call);
      assert [call][..0] == [];
      if y != [] {
        assert y[..0] == [];
      }
    }
  }
}
