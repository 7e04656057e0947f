/** The firewall killswitch subprocess (tailscaled_windows.go,
    beFirewallKillswitch).

    After resolving its interface and opening a firewall session on it,
    the process reads one JSON route list after another from stdin and
    hands each to the firewall, which replaces its permitted routes with
    it.  The first decode error or update error ends the process.  Route
    prefixes are opaque; the input stream is a finite sequence of decode
    results, and its end is the decoder's end-of-file error.
 */
module Killswitch {

  /** A netaddr.IPPrefix, kept opaque. */
  datatype Prefix = Prefix(text: string)

  /** One Decode call on stdin: a route list, together with whether the
      firewall rejects it when it is applied, or a decode error. */
  datatype Inbound = Routes(routes: seq<Prefix>, updateFails: bool) | DecodeError

  /** What startup learns from the OS: whether the GUID argument parses,
      whether an interface has it (and its LUID), and whether wf.New
      succeeds. */
  datatype Setup = Setup(guidValid: bool, interfaceFound: bool, luid: nat, firewallOpens: bool)

  /** Why the process exited (every exit is a log.Fatalf). */
  datatype Exit =
    | InvalidGuid
    | NoInterface
    | FirewallFailed
    | DecodeFailed(index: nat)  // the read at this index failed (index == length: end of input)
    | UpdateFailed(index: nat)  // the list read at this index was rejected

  /** The firewall session: the routes it currently lets through. */
  class Firewall {
    const luid: nat
    var permitted: seq<Prefix>
    /** Every route list the firewall accepted, in order. */
    ghost var History: seq<seq<Prefix>>

    constructor (luid: nat)
      ensures this.luid == luid && permitted == [] && History == []
    {
      this.luid := luid;
      permitted := [];
      History := [];
    }

    /** fw.UpdatePermittedRoutes: on success the new list replaces the old
        one; the failure is the firewall's answer, passed in. */
    method UpdatePermittedRoutes(routes: seq<Prefix>, fails: bool) returns (ok: bool)
      modifies this
      ensures ok == !fails
      ensures ok ==> permitted == routes && History == old(History) + [routes]
      ensures !ok ==> permitted == old(permitted) && History == old(History)
    {
      ok := !fails;
      if ok {
        permitted := routes;
        History := History + [routes];
      }
    }
  }

  // ---------------------------------------------------------------------
  // Specification of the route loop
  // ---------------------------------------------------------------------

  /** Whether this read ends the process. */
  predicate Ends(m: Inbound)
  {
    m.DecodeError? || m.updateFails
  }

  /** The index of the read that ends the loop; |stream| when every list
      is applied and the process stops at end of input. */
  function StopAt(stream: seq<Inbound>): (k: nat)
    ensures k <= |stream|
    ensures forall j :: 0 <= j < k ==> !Ends(stream[j])
    ensures k < |stream| ==> Ends(stream[k])
  {
    if stream == [] then 0
    else if Ends(stream[0]) then 0
    else 1 + StopAt(stream[1..])
  }

  /** The route lists of a run of successful reads. */
  function Lists(msgs: seq<Inbound>): seq<seq<Prefix>>
    requires forall j :: 0 <= j < |msgs| ==> msgs[j].Routes?
  {
    seq(|msgs|, j requires 0 <= j < |msgs| => msgs[j].routes)
  }

  /** The lists the firewall receives and accepts in a run. */
  function AppliedLists(stream: seq<Inbound>): seq<seq<Prefix>>
  {
    Lists(stream[..StopAt(stream)])
  }

  /** The permitted routes when the process exits. */
  function FinalRoutes(stream: seq<Inbound>): seq<Prefix>
  {
    var k := StopAt(stream);
    if k == 0 then [] else stream[k - 1].routes
  }

  function ExitOf(stream: seq<Inbound>): Exit
  {
    var k := StopAt(stream);
    if k < |stream| && stream[k].Routes? then UpdateFailed(k) else DecodeFailed(k)
  }

  // ---------------------------------------------------------------------
  // The process
  // ---------------------------------------------------------------------

  /** beFirewallKillswitch after the argument check.  fw is the firewall
      session when it could be opened. */
  method RunKillswitch(setup: Setup, stream: seq<Inbound>) returns (exit: Exit, fw: Firewall?)
    ensures !setup.guidValid ==> exit == InvalidGuid && fw == null
    ensures setup.guidValid && !setup.interfaceFound ==> exit == NoInterface && fw == null
    ensures setup.guidValid && setup.interfaceFound && !setup.firewallOpens ==>
      exit == FirewallFailed && fw == null
    ensures setup.guidValid && setup.interfaceFound && setup.firewallOpens ==>
      && fw != null && fresh(fw) && fw.luid == setup.luid
      && exit == ExitOf(stream)
      && fw.History == AppliedLists(stream)
      && fw.permitted == FinalRoutes(stream)
  {
    if !setup.guidValid {
      return InvalidGuid, null;
    }
    if !setup.interfaceFound {
      return NoInterface, null;
    }
    if !setup.firewallOpens {
      return FirewallFailed, null;
    }
    fw := new Firewall(setup.luid);
    var i := 0;
    while true
      invariant 0 <= i <= StopAt(stream)
      invariant fw.luid == setup.luid
      invariant fw.History == Lists(stream[..i])
      invariant fw.permitted == if i == 0 then [] else stream[i - 1].routes
      decreases |stream| - i
    {
      if i == |stream| || stream[i].DecodeError? {
        return DecodeFailed(i), fw;
      }
      var ok := fw.UpdatePermittedRoutes(stream[i].routes, stream[i].updateFails);
      if !ok {
        return UpdateFailed(i), fw;
      }
      assert Lists(stream[..i + 1]) == Lists(stream[..i]) + [stream[i].routes];
      i := i + 1;
    }
  }

  // ---------------------------------------------------------------------
  // Properties
  // ---------------------------------------------------------------------

  lemma {:induction false} StopAtAppend(s: seq<Inbound>, t: seq<Inbound>)
    ensures StopAt(s) < |s| ==> StopAt(s + t) == StopAt(s)
    ensures StopAt(s) == |s| ==> StopAt(s + t) == |s| + StopAt(t)
  {
    if s != [] {
      assert (s + t)[0] == s[0];
      assert (s + t)[1..] == s[1..] + t;
      StopAtAppend(s[1..], t);
    } else {
      assert s + t == t;
    }
  }

  /** Once a read ends the run, nothing read after it is ever applied. */
  lemma LaterReadsIgnored(s: seq<Inbound>, t: seq<Inbound>)
    requires StopAt(s) < |s|
    ensures ExitOf(s + t) == ExitOf(s)
    ensures AppliedLists(s + t) == AppliedLists(s)
    ensures FinalRoutes(s + t) == FinalRoutes(s)
  {
    StopAtAppend(s, t);
    var k := StopAt(s);
    assert (s + t)[..k + 1] == s[..k + 1];
    SamePrefixSameRun(s, s + t, k);
  }

  /** Two streams that agree up to and including the read at k, where the
      first stops, run alike. */
  lemma SamePrefixSameRun(s: seq<Inbound>, u: seq<Inbound>, k: nat)
    requires k < |s| && k < |u| && StopAt(s) == k && StopAt(u) == k
    requires s[..k + 1] == u[..k + 1]
    ensures ExitOf(u) == ExitOf(s)
    ensures AppliedLists(u) == AppliedLists(s)
    ensures FinalRoutes(u) == FinalRoutes(s)
  {
    assert s[k] == s[..k + 1][k] == u[k];
    assert s[..k] == s[..k + 1][..k] == u[..k];
    assert k > 0 ==> s[k - 1] == s[..k + 1][k - 1] == u[k - 1];
  }

  /** Each applied list replaces the permitted routes outright: when a
      run's last step is an accepted list, that list alone is permitted. */
  lemma {:induction false} ReplacesNotUnion(p: seq<Inbound>, r: seq<Prefix>)
    requires StopAt(p) == |p|
    ensures FinalRoutes(p + [Routes(r, false)]) == r
    ensures AppliedLists(p + [Routes(r, false)]) == AppliedLists(p) + [r]
  {
    var one := [Routes(r, false)];
    assert one[1..] == [];
    assert StopAt(one) == 1;
    StopAtAppend(p, one);
    var s := p + one;
    assert StopAt(s) == |s|;
    assert s[..|s|] == s;
    assert p[..|p|] == p;
    assert Lists(s) == Lists(p) + [r];
  }

  /** Resending the same list leaves the permitted routes as sending it once. */
  lemma ResendIdempotent(p: seq<Inbound>, r: seq<Prefix>)
    requires StopAt(p) == |p|
    ensures FinalRoutes(p + [Routes(r, false), Routes(r, false)]) == FinalRoutes(p + [Routes(r, false)])
  {
    ReplacesNotUnion(p, r);
    var p1 := p + [Routes(r, false)];
    StopAtAppend(p, [Routes(r, false)]);
    ReplacesNotUnion(p1, r);
    assert p1 + [Routes(r, false)] == p + [Routes(r, false), Routes(r, false)];
  }

  /** [10.0.0.0/8] followed by [] ends with nothing permitted. */
  lemma ScenarioLanThenEmpty()
    ensures FinalRoutes([Routes([Prefix("10.0.0.0/8")], false), Routes([], false)]) == []
  {
    ReplacesNotUnion([Routes([Prefix("10.0.0.0/8")], false)], []);
  }
}
