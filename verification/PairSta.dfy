/** The table of paired stations: the event handler of project/pairsta.c and the bulk rewrite
    `wificfg_set_paired_stas` of project/syscfg.c, which share the array `sys_cfgs.pair_stas`. */
module PairSta {

  /** A station address, six bytes read as one number; an empty slot holds the zero address. */
  type Mac = m: int | 0 <= m < 0x1_0000_0000_0000 witness 0

  /** No station holds two slots. */
  predicate NoDup(t: seq<Mac>) {
    forall i, j :: 0 <= i < j < |t| && t[i] == t[j] ==> t[i] == 0
  }

  /** The stations the table holds. */
  function Members(t: seq<Mac>): (s: set<Mac>) {
    set m | m in t && m != 0
  }

  /** The first slot at or after `from` that holds `m`. */
  function FirstOf(t: seq<Mac>, m: Mac, from: nat): (i: nat)
    requires from <= |t|
    ensures from <= i <= |t| && (i < |t| ==> t[i] == m)
    ensures forall k :: from <= k < i ==> t[k] != m
    decreases |t| - from
  {
    if from == |t| || t[from] == m then from else FirstOf(t, m, from + 1)
  }

  /** The first slot at or after `from` whose station is not reported connected. */
  function FirstIdle(t: seq<Mac>, connected: set<Mac>, from: nat): (i: nat)
    requires from <= |t|
    ensures from <= i <= |t| && (i < |t| ==> t[i] !in connected)
    ensures forall k :: from <= k < i ==> t[k] in connected
    decreases |t| - from
  {
    if from == |t| || t[from] !in connected then from else FirstIdle(t, connected, from + 1)
  }

  /** What `sys_save_pairsta` makes of the table. In station mode there is one slot; in access-point mode the
      handler looks for the address, then for a free slot, then for a station to push out. */
  function Saved(t: seq<Mac>, mac: Mac, del: bool, connected: set<Mac>, staMode: bool): (r: seq<Mac>)
    requires |t| > 0
    ensures |r| == |t|
  {
    if staMode then
      if !del then t[0 := mac] else if t[0] == mac then t[0 := 0] else t
    else
      var at := FirstOf(t, mac, 0);
      if del then
        if at < |t| then t[at := 0] else t
      else if at < |t| then t
      else
        var free, idle := FirstOf(t, 0, 0), FirstIdle(t, connected, 0);
        if free < |t| then t[free := mac] else if idle < |t| then t[idle := mac] else t
  }

  // ---- one event in access-point mode -------------------------------------------------------------

  datatype Event = Paired(mac: Mac, connected: set<Mac>) | Unpaired(mac: Mac)

  function Step(t: seq<Mac>, e: Event): (r: seq<Mac>)
    requires |t| > 0
    ensures |r| == |t|
  {
    match e
    case Paired(mac, connected) => Saved(t, mac, false, connected, false)
    case Unpaired(mac) => Saved(t, mac, true, {}, false)
  }

  lemma StepKeepsNoDup(t: seq<Mac>, e: Event)
    requires |t| > 0 && NoDup(t)
    ensures NoDup(Step(t, e))
  {
  }

  /** Removing an address takes exactly that station out. */
  lemma UnpairedMembers(t: seq<Mac>, mac: Mac)
    requires |t| > 0 && NoDup(t)
    ensures Members(Step(t, Unpaired(mac))) == Members(t) - {mac}
  {
    var r, at := Step(t, Unpaired(mac)), FirstOf(t, mac, 0);
    if at < |t| {
      forall m: Mac | m != 0
        ensures m in r <==> m in t && m != mac
      {
        InUpdated(t, at, 0, m);
        assert forall k :: 0 <= k < |t| && k != at && t[k] == t[at] ==> t[k] == 0;
      }
    }
  }

  lemma InUpdated(t: seq<Mac>, i: nat, v: Mac, m: Mac)
    requires i < |t|
    ensures m in t[i := v] <==> m == v || exists k :: 0 <= k < |t| && k != i && t[k] == m
  {
    var r := t[i := v];
    if m == v {
      assert r[i] == m;
    }
    if k :| 0 <= k < |t| && k != i && t[k] == m {
      assert r[k] == m;
    }
  }

  /** The station pushed out to make room, if any: only when the newcomer is unknown and no slot is free. */
  function Victims(t: seq<Mac>, mac: Mac, connected: set<Mac>): (s: set<Mac>)
    requires |t| > 0
    ensures |s| <= 1
    ensures s <= Members(t) && s !! connected
    ensures s != {} ==> |Members(t)| > 0 && 0 !in t && mac !in t
  {
    var idle := FirstIdle(t, connected, 0);
    if mac in t || 0 in t || idle == |t| then {} else (assert t[idle] in Members(t); {t[idle]})
  }

  /** As a set of stations: the newcomer comes in, whatever it pushes out was not connected, and nothing else
      changes; it is left out exactly when every slot holds a connected station. */
  lemma PairedMembers(t: seq<Mac>, mac: Mac, connected: set<Mac>)
    requires |t| > 0 && NoDup(t)
    ensures var s' := Members(Step(t, Paired(mac, connected)));
            if mac !in t && 0 !in t && (forall m :: m in t ==> m in connected) then s' == Members(t)
            else s' == Members(t) - Victims(t, mac, connected) + ({mac} - {0})
  {
    var r, at := Step(t, Paired(mac, connected)), FirstOf(t, mac, 0);
    var free, idle := FirstOf(t, 0, 0), FirstIdle(t, connected, 0);
    if at < |t| {
      assert mac in t;
    } else if free < |t| {
      assert t[free] == 0;
      forall m: Mac | m != 0
        ensures m in r <==> m in t || m == mac
      {
        InUpdated(t, free, mac, m);
      }
    } else if idle < |t| {
      assert t[idle] in t && t[idle] !in connected;
      forall m: Mac | m != 0
        ensures m in r <==> (m in t && m != t[idle]) || m == mac
      {
        InUpdated(t, idle, mac, m);
        if k :| 0 <= k < |t| && k != idle && t[k] == m {
          assert t[k] != t[idle];
        }
      }
    }
  }

  // ---- runs ---------------------------------------------------------------------------------------

  function Run(t: seq<Mac>, es: seq<Event>): (r: seq<Mac>)
    requires |t| > 0
    ensures |r| == |t|
    decreases |es|
  {
    if es == [] then t else Run(Step(t, es[0]), es[1..])
  }

  /** Over every run the table never holds a station twice. */
  lemma {:induction false} RunKeepsNoDup(t: seq<Mac>, es: seq<Event>)
    requires |t| > 0 && NoDup(t)
    ensures NoDup(Run(t, es))
    decreases |es|
  {
    if es != [] {
      StepKeepsNoDup(t, es[0]);
      RunKeepsNoDup(Step(t, es[0]), es[1..]);
    }
  }

  /** A paired station stays paired through any run that does not unpair it and in which it is reported
      connected whenever a newcomer looks for a slot. */
  lemma {:induction false} ConnectedStaysPaired(t: seq<Mac>, es: seq<Event>, m: Mac)
    requires |t| > 0 && NoDup(t) && m in Members(t)
    requires forall k :: 0 <= k < |es| ==> if es[k].Unpaired? then es[k].mac != m else m in es[k].connected
    ensures m in Members(Run(t, es))
    decreases |es|
  {
    if es != [] {
      StepKeepsNoDup(t, es[0]);
      if es[0].Unpaired? {
        UnpairedMembers(t, es[0].mac);
      } else {
        PairedMembers(t, es[0].mac, es[0].connected);
      }
      ConnectedStaysPaired(Step(t, es[0]), es[1..], m);
    }
  }

  /** A station that is paired nowhere in a run is not in the table at its end unless it was at its start. */
  lemma {:induction false} NobodyUninvited(t: seq<Mac>, es: seq<Event>, m: Mac)
    requires |t| > 0 && NoDup(t) && m != 0 && m in Members(Run(t, es))
    ensures m in Members(t) || exists k :: 0 <= k < |es| && es[k].Paired? && es[k].mac == m
    decreases |es|
  {
    if es != [] {
      var t' := Step(t, es[0]);
      StepKeepsNoDup(t, es[0]);
      NobodyUninvited(t', es[1..], m);
      if m in Members(t') {
        if es[0].Unpaired? {
          UnpairedMembers(t, es[0].mac);
        } else {
          PairedMembers(t, es[0].mac, es[0].connected);
          assert m in Members(t) || es[0].mac == m;
        }
      } else {
        var k :| 0 <= k < |es[1..]| && es[1..][k].Paired? && es[1..][k].mac == m;
        assert es[k + 1] == es[1..][k];
      }
    }
  }

  /** Once unpaired, a station is out until it is paired again. */
  lemma UnpairedStaysOut(t: seq<Mac>, es: seq<Event>, m: Mac)
    requires |t| > 0 && NoDup(t) && m != 0
    requires forall k :: 0 <= k < |es| ==> es[k].Paired? ==> es[k].mac != m
    ensures m !in Members(Run(Step(t, Unpaired(m)), es))
  {
    StepKeepsNoDup(t, Unpaired(m));
    UnpairedMembers(t, m);
    if m in Members(Run(Step(t, Unpaired(m)), es)) {
      NobodyUninvited(Step(t, Unpaired(m)), es, m);
    }
  }

  /** In station mode the newcomer overwrites slot 0 without a look at the others, so distinctness survives
      exactly when they do not hold it. */
  lemma StationModeDistinctIff(t: seq<Mac>, mac: Mac, connected: set<Mac>)
    requires |t| > 0 && NoDup(t)
    ensures NoDup(Saved(t, mac, false, connected, true)) <==> mac == 0 || mac !in t[1..]
  {
    var r := t[0 := mac];
    if mac != 0 && mac in t[1..] {
      var k :| 0 <= k < |t[1..]| && t[1..][k] == mac;
      assert r[k + 1] == r[0];
    } else {
      forall i, j | 0 <= i < j < |r| && r[i] == r[j]
        ensures r[i] == 0
      {
        assert i == 0 ==> t[1..][j - 1] == r[j];
      }
    }
  }

  // ---- the bulk rewrite ---------------------------------------------------------------------------

  /** The new table: the list, then empty slots. */
  function Padded(list: seq<Mac>, n: nat): (r: seq<Mac>)
    requires |list| <= n
    ensures |r| == n
  {
    seq(n, i requires 0 <= i < n => if i < |list| then list[i] else 0)
  }

  /** The stations of `t` that `list` no longer mentions, in table order. */
  function Unwanted(t: seq<Mac>, list: seq<Mac>): (r: seq<Mac>) {
    if t == [] then []
    else
      var m := t[|t| - 1];
      Unwanted(t[..|t| - 1], list) + if m != 0 && m !in list then [m] else []
  }

  lemma {:induction false} UnwantedHolds(t: seq<Mac>, list: seq<Mac>, m: Mac)
    ensures m in Unwanted(t, list) <==> m in t && m != 0 && m !in list
  {
    if t != [] {
      UnwantedHolds(t[..|t| - 1], list, m);
      assert t == t[..|t| - 1] + [t[|t| - 1]];
    }
  }

  /** ... and in the order of the table. */
  lemma UnwantedInOrder(t: seq<Mac>, m: Mac, list: seq<Mac>)
    ensures Unwanted([], list) == []
    ensures Unwanted(t + [m], list) == if m == 0 || m in list then Unwanted(t, list) else Unwanted(t, list) + [m]
  {
    assert (t + [m])[..|t|] == t;
  }

  /** The rewritten table is distinct exactly when the list is, and later deletions of stations the list does
      not mention cannot touch it, in either mode. */
  lemma RewrittenTable(list: seq<Mac>, n: nat, mac: Mac, staMode: bool)
    requires |list| <= n && 0 < n
    ensures forall i :: 0 <= i < n ==> Padded(list, n)[i] == if i < |list| then list[i] else 0
    ensures NoDup(Padded(list, n)) <==> NoDup(list)
    ensures mac == 0 || mac !in list ==> Saved(Padded(list, n), mac, true, {}, staMode) == Padded(list, n)
  {
    var p := Padded(list, n);
    if NoDup(p) {
      forall i, j | 0 <= i < j < |list| && list[i] == list[j]
        ensures list[i] == 0
      {
        assert p[i] == p[j];
      }
    }
  }

  class Config {
    const stas: array<Mac>
    const staMode: bool
    var pairConnOnly: bool

    ghost predicate Valid()
      reads this
    {
      0 < stas.Length <= 127
    }

    constructor (n: nat, staMode: bool)
      requires 0 < n <= 127
      ensures Valid() && fresh(stas) && stas.Length == n && this.staMode == staMode
      ensures !pairConnOnly && forall i :: 0 <= i < n ==> stas[i] == 0
    {
      stas := new Mac[n](_ => 0);
      this.staMode := staMode;
      pairConnOnly := false;
    }

    /** `sys_check_pairsta`. */
    method Check(mac: Mac) returns (r: int)
      requires Valid()
      ensures r == if mac in stas[..] then 0 else 1
    {
      var i := 0;
      while i < stas.Length
        invariant 0 <= i <= stas.Length
        invariant mac !in stas[..i]
      {
        if stas[i] == mac {
          assert stas[..][i] == mac;
          return 0;
        }
        i := i + 1;
      }
      assert stas[..] == stas[..i];
      r := 1;
    }

    /** `sys_save_pairsta`. */
    method Save(mac: Mac, del: bool, connected: set<Mac>)
      requires Valid()
      modifies stas
      ensures stas[..] == Saved(old(stas[..]), mac, del, connected, staMode)
      // station mode: slot 0 alone
      ensures staMode ==> stas[0] == if !del then mac else if old(stas[0]) == mac then 0 else old(stas[0])
      ensures staMode ==> forall k :: 0 < k < stas.Length ==> stas[k] == old(stas[k])
      // access-point mode: a slot keeps its station, or is emptied of `mac`, or takes `mac` in
      ensures !staMode ==>
                forall k :: 0 <= k < stas.Length ==>
                  || stas[k] == old(stas[k])
                  || (del && old(stas[k]) == mac && stas[k] == 0)
                  || (!del && stas[k] == mac && (old(stas[k]) == 0 || old(stas[k]) !in connected))
      // ... and it is the first one that will do
      ensures !staMode ==>
                forall j, k :: 0 <= j < k < stas.Length && stas[k] != old(stas[k]) ==>
                  if del then old(stas[j]) != mac
                  else if 0 in old(stas[..]) then old(stas[j]) != 0 else old(stas[j]) in connected
    {
      if staMode {
        if del {
          if stas[0] == mac {
            stas[0] := 0;
          }
        } else {
          stas[0] := mac;
        }
        return;
      }
      if !del {
        var unknown := Check(mac);
        if unknown == 0 {
          return;
        }
      }
      var wanted := if del then mac else 0;
      var i := 0;
      while i < stas.Length
        invariant 0 <= i <= stas.Length
        invariant FirstOf(stas[..], wanted, 0) == FirstOf(stas[..], wanted, i)
        invariant stas[..] == old(stas[..])
      {
        if stas[i] == wanted {
          stas[i] := if del then 0 else mac;
          return;
        }
        i := i + 1;
      }
      if !del {
        i := 0;
        while i < stas.Length
          invariant 0 <= i <= stas.Length
          invariant FirstIdle(stas[..], connected, 0) == FirstIdle(stas[..], connected, i)
          invariant stas[..] == old(stas[..])
        {
          if stas[i] !in connected {
            stas[i] := mac;
            return;
          }
          i := i + 1;
        }
      }
    }

    /** `sys_ieee80211_event_pairsta` for the two requests it judges: with `pair_conn_only` set it accepts
        exactly the stations of the table. */
    method PreAuth(mac: Mac) returns (r: int)
      requires Valid()
      ensures r == 0 <==> !pairConnOnly || mac in stas[..]
      ensures NoDup(stas[..]) && mac != 0 && pairConnOnly ==> (r == 0 <==> mac in Members(stas[..]))
    {
      if pairConnOnly {
        r := Check(mac);
        return;
      }
      r := 0;
    }

    /** The other two events, in access-point mode: the table makes the step of the run above. */
    method Notify(e: Event)
      requires Valid() && !staMode
      modifies stas
      ensures stas[..] == Step(old(stas[..]), e)
    {
      match e {
        case Paired(mac, connected) => Save(mac, false, connected);
        case Unpaired(mac) => Save(mac, true, {});
      }
    }

    /** A sequence of events, each handled on the array in turn, makes the run above. */
    method NotifyAll(es: seq<Event>)
      requires Valid() && !staMode
      modifies stas
      ensures stas[..] == Run(old(stas[..]), es)
      ensures NoDup(old(stas[..])) ==> NoDup(stas[..])
    {
      ghost var was := stas[..];
      for i := 0 to |es|
        invariant Run(stas[..], es[i..]) == Run(was, es)
      {
        assert es[i..][0] == es[i] && es[i..][1..] == es[i + 1..];
        Notify(es[i]);
      }
      if NoDup(was) {
        RunKeepsNoDup(was, es);
      }
    }

    /** Any number of success events for unpairings already requested, in any order. */
    method Deliver(requests: seq<Mac>)
      requires Valid()
      modifies stas
      ensures forall k :: 0 <= k < stas.Length ==>
                stas[k] == old(stas[k]) || (stas[k] == 0 && old(stas[k]) in requests)
    {
      var n: nat := *;
      while n > 0
        invariant forall k :: 0 <= k < stas.Length ==>
                    stas[k] == old(stas[k]) || (stas[k] == 0 && old(stas[k]) in requests)
      {
        if requests != [] {
          var i: nat := *;
          ghost var before := stas[..];
          Save(requests[i % |requests|], true, {});
          assert stas[..] == Saved(before, requests[i % |requests|], true, {}, staMode);
          forall k | 0 <= k < stas.Length
            ensures stas[k] == before[k] || (stas[k] == 0 && before[k] in requests)
          {
            assert stas[..][k] == stas[k];
          }
        }
        n := n - 1;
      }
    }

    /** `wificfg_set_paired_stas`. Every unpairing it requests succeeds at a moment of its own choosing, during
        this call or after it, and each success deletes from the table being rewritten. The table ends up as
        the list all the same. From a distinct table the requests are exactly the unwanted stations. */
    method SetPairedStas(list: seq<Mac>) returns (requests: seq<Mac>)
      requires Valid() && |list| <= stas.Length
      modifies this, stas
      ensures stas[..] == Padded(list, stas.Length) && pairConnOnly
      ensures forall i :: 0 <= i < stas.Length ==> stas[i] == if i < |list| then list[i] else 0
      ensures NoDup(old(stas[..])) ==> requests == Unwanted(old(stas[..]), list)
      ensures forall m :: m in requests && m != 0 ==> m in old(stas[..]) && m !in list
      ensures forall m :: m in old(stas[..]) && m != 0 && m !in list ==> m in requests
    {
      ghost var was := stas[..];
      requests := [];
      var i := 0;
      while i < stas.Length
        invariant 0 <= i <= stas.Length
        invariant Erased(was, stas[..], i, requests)
        invariant Asked(was[..i], list, requests)
      {
        requests := Consider(list, i, requests, was);
        i := i + 1;
      }
      assert was[..i] == was;
      i := 0;
      while i < |list|
        invariant 0 <= i <= |list|
        invariant forall k :: 0 <= k < stas.Length ==> stas[k] == if k < i then list[k] else 0
      {
        Deliver(requests);
        stas[i] := list[i];
        i := i + 1;
      }
      pairConnOnly := true;
      Deliver(requests);
    }

    /** One turn of the first loop: look at slot `i`, perhaps request an unpairing, and empty the slot. */
    method Consider(list: seq<Mac>, i: nat, requested: seq<Mac>, ghost was: seq<Mac>) returns (requests: seq<Mac>)
      requires Valid() && |list| <= stas.Length && i < stas.Length == |was|
      requires Erased(was, stas[..], i, requested) && Asked(was[..i], list, requested)
      modifies stas
      ensures Erased(was, stas[..], i + 1, requests) && Asked(was[..i + 1], list, requests)
    {
      requests := requested;
      Deliver(requests);
      if stas[i] == 0 {
        AskedPast(was, i, list, requests);
        return;
      }
      var find := false;
      var j := 0;
      while j < |list|
        invariant 0 <= j <= |list|
        invariant Erased(was, stas[..], i, requests)
        invariant stas[i] != 0 ==> stas[i] !in list[..j]
        invariant !find
      {
        Deliver(requests);
        if stas[i] == list[j] {
          find := true;
          break;
        }
        j := j + 1;
      }
      Deliver(requests);
      if !find {
        AskedOneMore(was, i, list, requests, stas[i]);
        requests := requests + [stas[i]];
      } else {
        AskedPast(was, i, list, requests);
      }
      Deliver(requests);
      stas[i] := 0;
    }
  }

  /** Slots below `i` are empty; a later slot is as it was, or was deleted by a requested unpairing. */
  ghost predicate Erased(was: seq<Mac>, now: seq<Mac>, i: nat, requests: seq<Mac>)
    requires i <= |was|
  {
    && |now| == |was|
    && (forall k :: 0 <= k < i ==> now[k] == 0)
    && (forall k :: i <= k < |was| ==> now[k] == was[k] || (now[k] == 0 && was[k] in requests))
  }

  /** What has been requested once the slots in `seen` have been dealt with. */
  ghost predicate Asked(seen: seq<Mac>, list: seq<Mac>, requests: seq<Mac>) {
    && (forall m :: m in requests && m != 0 ==> m in seen && m !in list)
    && (forall m :: m in seen && m != 0 && m !in list ==> m in requests)
    && (NoDup(seen) ==> requests == Unwanted(seen, list))
  }

  /** Slot `i` needs no request: it was empty, or the list keeps its station, or that has been requested. */
  lemma AskedPast(was: seq<Mac>, i: nat, list: seq<Mac>, requests: seq<Mac>)
    requires i < |was| && Asked(was[..i], list, requests)
    requires was[i] == 0 || was[i] in list || was[i] in requests
    ensures Asked(was[..i + 1], list, requests)
  {
    Extend(was, i);
  }

  lemma AskedOneMore(was: seq<Mac>, i: nat, list: seq<Mac>, requests: seq<Mac>, m: Mac)
    requires i < |was| && Asked(was[..i], list, requests) && was[i] != 0
    requires (m == was[i] && m !in list) || (m == 0 && was[i] in requests)
    ensures Asked(was[..i + 1], list, requests + [m])
  {
    Extend(was, i);
  }

  lemma Extend(was: seq<Mac>, i: nat)
    requires i < |was|
    ensures was[..i + 1] == was[..i] + [was[i]]
    ensures NoDup(was[..i + 1]) ==> NoDup(was[..i]) && (was[i] != 0 ==> was[i] !in was[..i])
  {
    var w := was[..i + 1];
    assert w[..i] == was[..i] && w[i] == was[i];
    if NoDup(w) {
      forall a, b | 0 <= a < b < i && was[..i][a] == was[..i][b]
        ensures was[..i][a] == 0
      {
        assert w[a] == w[b];
      }
    }
  }
}
