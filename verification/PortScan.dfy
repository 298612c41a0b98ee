/** Port-scan detection: per source a bounded list of the ports it has touched. */
module PortScan {

  const MAX_SOURCES: nat := 1024
  const MAX_PORTS: nat := 256
  const SCAN_THRESHOLD: nat := 20

  datatype Source = Source(ip: nat, ports: seq<nat>)

  /** A flow event as far as the detector looks at it. */
  datatype Touch = Touch(ip: nat, port: nat)

  // ---------------------------------------------------------------------
  // One event
  // ---------------------------------------------------------------------

  /** The source's slot from `i` on, or the table's length. */
  function FindFrom(table: seq<Source>, ip: nat, i: nat): (r: nat)
    requires i <= |table|
    ensures i <= r <= |table|
    ensures r < |table| ==> table[r].ip == ip
    ensures forall j | i <= j < r :: table[j].ip != ip
    decreases |table| - i
  {
    if i == |table| || table[i].ip == ip then i else FindFrom(table, ip, i + 1)
  }

  /** The table after the source has been looked up: a new source gets a slot while there are any. */
  function WithSource(table: seq<Source>, ip: nat): seq<Source> {
    if FindFrom(table, ip, 0) < |table| || |table| >= MAX_SOURCES then table else table + [Source(ip, [])]
  }

  function AddPort(ports: seq<nat>, port: nat): seq<nat> {
    if port == 0 || port in ports || |ports| >= MAX_PORTS then ports else ports + [port]
  }

  /** The table once the port has been stored with its source, if that has a slot. */
  function WithPort(t: seq<Source>, x: Touch): seq<Source> {
    var i := FindFrom(t, x.ip, 0);
    if i == |t| then t else t[i := Source(x.ip, AddPort(t[i].ports, x.port))]
  }

  function Step(table: seq<Source>, x: Touch): seq<Source> {
    WithPort(WithSource(table, x.ip), x)
  }

  /** A port not stored before, with the threshold reached after storing it if there was room. */
  predicate IsScan(table: seq<Source>, x: Touch) {
    var t := WithSource(table, x.ip);
    var i := FindFrom(t, x.ip, 0);
    && i < |t| && x.port > 0 && x.port !in t[i].ports
    && |AddPort(t[i].ports, x.port)| >= SCAN_THRESHOLD
  }

  function Exec(xs: seq<Touch>): seq<Source> {
    if xs == [] then [] else Step(Exec(xs[..|xs| - 1]), xs[|xs| - 1])
  }

  // ---------------------------------------------------------------------
  // The specification
  // ---------------------------------------------------------------------

  /** The first `max` distinct values, in order of arrival. */
  function FirstDistinct(xs: seq<nat>, max: nat): seq<nat> {
    if xs == [] then []
    else
      var before, x := FirstDistinct(xs[..|xs| - 1], max), xs[|xs| - 1];
      if x in before || |before| >= max then before else before + [x]
  }

  function IpsOf(xs: seq<Touch>): seq<nat> {
    if xs == [] then [] else IpsOf(xs[..|xs| - 1]) + [xs[|xs| - 1].ip]
  }

  /** The nonzero ports one source touches, in order. */
  function PortsOf(xs: seq<Touch>, ip: nat): seq<nat> {
    if xs == [] then []
    else
      var x := xs[|xs| - 1];
      PortsOf(xs[..|xs| - 1], ip) + if x.ip == ip && x.port > 0 then [x.port] else []
  }

  /** Value `i` of `d` stands in `xs` where it is new and all values before it are earlier ones of `d`. */
  ghost predicate NthNew(d: seq<nat>, xs: seq<nat>, i: nat)
    requires i < |d|
  {
    exists f | 0 <= f < |xs| :: xs[f] == d[i] && FirstAt(d[..i], xs, f)
  }

  /** Position `f` of `xs` brings the first value not in `known`. */
  ghost predicate FirstAt(known: seq<nat>, xs: seq<nat>, f: nat)
    requires f < |xs|
  {
    xs[f] !in xs[..f] && xs[f] !in known && forall x | x in xs[..f] :: x in known
  }

  /** `d` lists the distinct values of `xs` in order of first arrival: all of them, or the first `max`. */
  ghost predicate ListsFirst(d: seq<nat>, xs: seq<nat>, max: nat) {
    && |d| <= max
    && (forall i | 0 <= i < |d| :: NthNew(d, xs, i))
    && (|d| < max ==> forall x | x in xs :: x in d)
  }

  lemma NthNewLonger(d: seq<nat>, xs: seq<nat>, i: nat, more: seq<nat>, x: seq<nat>)
    requires i < |d| && NthNew(d, xs, i)
    ensures NthNew(d + more, xs + x, i)
  {
    var f :| 0 <= f < |xs| && xs[f] == d[i] && FirstAt(d[..i], xs, f);
    assert (xs + x)[..f] == xs[..f] && (d + more)[..i] == d[..i];
    assert FirstAt((d + more)[..i], xs + x, f);
  }

  lemma LastIsNew(d: seq<nat>, xs: seq<nat>, x: nat)
    requires x !in d && forall y | y in xs :: y in d
    ensures NthNew(d + [x], xs + [x], |d|)
  {
    assert (xs + [x])[..|xs|] == xs && (d + [x])[..|d|] == d;
    assert FirstAt((d + [x])[..|d|], xs + [x], |xs|);
  }

  /** What the first distinct values are. */
  lemma {:induction false} FirstDistinctMeans(xs: seq<nat>, max: nat)
    ensures ListsFirst(FirstDistinct(xs, max), xs, max)
    decreases |xs|
  {
    if xs != [] {
      var init, x := xs[..|xs| - 1], xs[|xs| - 1];
      assert xs == init + [x];
      FirstDistinctMeans(init, max);
      var before, d := FirstDistinct(init, max), FirstDistinct(xs, max);
      var more := if x in before || |before| >= max then [] else [x];
      assert d == before + more;
      forall i | 0 <= i < |before|
        ensures NthNew(d, xs, i)
      {
        NthNewLonger(before, init, i, more, [x]);
      }
      if more == [x] {
        LastIsNew(before, init, x);
      }
    }
  }

  lemma AllKnownBefore(known: seq<nat>, xs: seq<nat>, f: nat)
    requires f < |xs| && FirstAt(known, xs, f)
    ensures forall i | 0 <= i < f :: xs[i] in known
  {
    forall i | 0 <= i < f
      ensures xs[i] in known
    {
      assert xs[..f][i] == xs[i];
    }
  }

  /** Two lists of first values agree as far as both go. */
  lemma {:induction false} SameUpTo(d: seq<nat>, e: seq<nat>, xs: seq<nat>, k: nat)
    requires (forall i | 0 <= i < |d| :: NthNew(d, xs, i)) && (forall i | 0 <= i < |e| :: NthNew(e, xs, i))
    requires k <= |d| && k <= |e|
    ensures d[..k] == e[..k]
  {
    if k > 0 {
      SameUpTo(d, e, xs, k - 1);
      assert NthNew(d, xs, k - 1) && NthNew(e, xs, k - 1);
      var f :| 0 <= f < |xs| && xs[f] == d[k - 1] && FirstAt(d[..k - 1], xs, f);
      var g :| 0 <= g < |xs| && xs[g] == e[k - 1] && FirstAt(e[..k - 1], xs, g);
      AllKnownBefore(d[..k - 1], xs, f);
      AllKnownBefore(e[..k - 1], xs, g);
      assert d[..k] == d[..k - 1] + [d[k - 1]] && e[..k] == e[..k - 1] + [e[k - 1]];
    }
  }

  lemma NextIsMissing(d: seq<nat>, e: seq<nat>, xs: seq<nat>)
    requires |d| < |e| && e[..|d|] == d && NthNew(e, xs, |d|)
    ensures e[|d|] in xs && e[|d|] !in d
  {
  }

  lemma NoLonger(d: seq<nat>, e: seq<nat>, xs: seq<nat>, max: nat)
    requires ListsFirst(d, xs, max) && ListsFirst(e, xs, max)
    ensures |e| <= |d|
  {
    if |d| < |e| {
      assert d[..|d|] == d;
      SameUpTo(d, e, xs, |d|);
      NextIsMissing(d, e, xs);
    }
  }

  /** Nothing else meets that description. */
  lemma FirstDistinctIsOnly(d: seq<nat>, xs: seq<nat>, max: nat)
    ensures ListsFirst(d, xs, max) <==> d == FirstDistinct(xs, max)
  {
    FirstDistinctMeans(xs, max);
    var e := FirstDistinct(xs, max);
    if ListsFirst(d, xs, max) {
      NoLonger(d, e, xs, max);
      NoLonger(e, d, xs, max);
      SameUpTo(d, e, xs, |d|);
      assert d[..|d|] == d && e[..|d|] == e;
    }
  }

  /** In particular there are no repeats and nothing foreign. */
  lemma FirstDistinctDistinct(xs: seq<nat>, max: nat)
    ensures var d := FirstDistinct(xs, max);
            && |d| <= max
            && (forall i, j | 0 <= i < j < |d| :: d[i] != d[j])
            && (forall x | x in d :: x in xs)
            && (|d| < max ==> forall x | x in xs :: x in d)
  {
    FirstDistinctMeans(xs, max);
    var d := FirstDistinct(xs, max);
    forall i, j | 0 <= i < j < |d|
      ensures d[i] != d[j]
    {
      assert NthNew(d, xs, j);
      assert d[i] in d[..j];
    }
    forall x | x in d
      ensures x in xs
    {
      var i :| 0 <= i < |d| && d[i] == x;
      assert NthNew(d, xs, i);
    }
  }

  // ---------------------------------------------------------------------
  // Every run meets it
  // ---------------------------------------------------------------------

  function IpsIn(table: seq<Source>): seq<nat> {
    seq(|table|, i requires 0 <= i < |table| => table[i].ip)
  }

  /** The table's sources are the first distinct ones, each with its first distinct ports. */
  ghost predicate Meets(table: seq<Source>, xs: seq<Touch>) {
    IpsIn(table) == FirstDistinct(IpsOf(xs), MAX_SOURCES) && PortsMeet(table, xs)
  }

  lemma IpsSnoc(xs: seq<Touch>, x: Touch)
    ensures IpsOf(xs + [x]) == IpsOf(xs) + [x.ip]
    ensures FirstDistinct(IpsOf(xs + [x]), MAX_SOURCES) ==
            var before := FirstDistinct(IpsOf(xs), MAX_SOURCES);
            if x.ip in before || |before| >= MAX_SOURCES then before else before + [x.ip]
  {
    assert (xs + [x])[..|xs|] == xs;
    assert (IpsOf(xs) + [x.ip])[..|IpsOf(xs)|] == IpsOf(xs);
  }

  lemma PortsSnoc(xs: seq<Touch>, x: Touch, ip: nat)
    ensures FirstDistinct(PortsOf(xs + [x], ip), MAX_PORTS) ==
            var before := FirstDistinct(PortsOf(xs, ip), MAX_PORTS);
            if x.ip == ip then AddPort(before, x.port) else before
  {
    assert (xs + [x])[..|xs|] == xs;
    var ports := PortsOf(xs, ip);
    assert ports + [] == ports;
    assert (ports + [x.port])[..|ports|] == ports;
  }

  lemma {:induction false} PortsOfUnseen(xs: seq<Touch>, ip: nat)
    requires ip !in IpsOf(xs)
    ensures PortsOf(xs, ip) == []
    decreases |xs|
  {
    if xs != [] {
      var init := xs[..|xs| - 1];
      assert IpsOf(xs) == IpsOf(init) + [xs[|xs| - 1].ip];
      PortsOfUnseen(init, ip);
    }
  }

  /** Every source listed has its first distinct ports. */
  ghost predicate PortsMeet(table: seq<Source>, xs: seq<Touch>) {
    forall i | 0 <= i < |table| :: table[i].ports == FirstDistinct(PortsOf(xs, table[i].ip), MAX_PORTS)
  }

  lemma NewSourceMeets(table: seq<Source>, xs: seq<Touch>, ip: nat)
    requires Meets(table, xs) && ip !in IpsIn(table) && |table| < MAX_SOURCES
    ensures IpsIn(table + [Source(ip, [])]) == IpsIn(table) + [ip]
    ensures PortsMeet(table + [Source(ip, [])], xs)
  {
    FirstDistinctDistinct(IpsOf(xs), MAX_SOURCES);
    assert |IpsIn(table)| < MAX_SOURCES;
    assert ip !in IpsOf(xs);
    PortsOfUnseen(xs, ip);
  }

  /** Looking a source up keeps the table right, with a new source's ports still empty. */
  lemma LookupMeets(table: seq<Source>, xs: seq<Touch>, x: Touch)
    requires Meets(table, xs)
    ensures IpsIn(WithSource(table, x.ip)) == FirstDistinct(IpsOf(xs + [x]), MAX_SOURCES)
    ensures PortsMeet(WithSource(table, x.ip), xs)
  {
    IpsSnoc(xs, x);
    var i := FindFrom(table, x.ip, 0);
    if i < |table| {
      assert IpsIn(table)[i] == x.ip;
    } else {
      assert x.ip !in IpsIn(table);
      if |table| < MAX_SOURCES {
        NewSourceMeets(table, xs, x.ip);
      }
    }
  }

  ghost predicate IpsDistinct(t: seq<Source>) {
    forall i, j | 0 <= i < j < |t| :: t[i].ip != t[j].ip
  }

  lemma StoreMeets(t: seq<Source>, xs: seq<Touch>, x: Touch)
    requires PortsMeet(t, xs) && IpsDistinct(t)
    ensures IpsIn(WithPort(t, x)) == IpsIn(t) && PortsMeet(WithPort(t, x), xs + [x])
  {
    forall i | 0 <= i < |t|
      ensures WithPort(t, x)[i].ports == FirstDistinct(PortsOf(xs + [x], t[i].ip), MAX_PORTS)
    {
      PortsSnoc(xs, x, t[i].ip);
    }
  }

  lemma StepMeets(table: seq<Source>, xs: seq<Touch>, x: Touch)
    requires Meets(table, xs)
    ensures Meets(Step(table, x), xs + [x])
  {
    LookupMeets(table, xs, x);
    var t := WithSource(table, x.ip);
    FirstDistinctDistinct(IpsOf(xs + [x]), MAX_SOURCES);
    assert forall i | 0 <= i < |t| :: IpsIn(t)[i] == t[i].ip;
    StoreMeets(t, xs, x);
  }

  lemma RunStepMeets(xs: seq<Touch>, init: seq<Touch>, last: Touch, table: seq<Source>)
    requires xs == init + [last] && Meets(table, init)
    ensures Meets(Step(table, last), xs)
  {
    StepMeets(table, init, last);
  }

  /**
   * After every run the table holds the first 1024 distinct sources, in order
   * of arrival, each with the first 256 distinct nonzero ports it touched.
   */
  lemma {:induction false} EveryRunMeets(xs: seq<Touch>)
    ensures Meets(Exec(xs), xs)
    decreases |xs|
  {
    if xs != [] {
      var init, last := xs[..|xs| - 1], xs[|xs| - 1];
      assert xs == init + [last];
      EveryRunMeets(init);
      RunStepMeets(xs, init, last, Exec(init));
    }
  }

  /** The source is among the first 1024, counting this event. */
  ghost predicate Tracked(xs: seq<Touch>, x: Touch) {
    x.ip in FirstDistinct(IpsOf(xs + [x]), MAX_SOURCES)
  }

  /**
   * After any run an event is reported as a scan exactly when its source is
   * tracked and its port is nonzero, is none of the first 256 distinct ports
   * the source touched before, and at least 19 of those were touched.
   */
  lemma ScanIff(xs: seq<Touch>, x: Touch)
    ensures var stored := FirstDistinct(PortsOf(xs, x.ip), MAX_PORTS);
            IsScan(Exec(xs), x) <==>
              Tracked(xs, x) && x.port > 0 && x.port !in stored && |stored| + 1 >= SCAN_THRESHOLD
  {
    EveryRunMeets(xs);
    LookupMeets(Exec(xs), xs, x);
    var t := WithSource(Exec(xs), x.ip);
    var i := FindFrom(t, x.ip, 0);
    if i < |t| {
      assert IpsIn(t)[i] == x.ip;
      assert Tracked(xs, x);
    } else {
      assert forall j | 0 <= j < |t| :: IpsIn(t)[j] != x.ip;
      assert !Tracked(xs, x);
    }
  }

  /** For a source with fewer than 256 ports so far: its k-th new port is reported exactly when k is at least 20. */
  lemma ScanOnTwentiethPort(xs: seq<Touch>, x: Touch)
    requires Tracked(xs, x) && x.port > 0 && x.port !in PortsOf(xs, x.ip)
    requires |FirstDistinct(PortsOf(xs, x.ip), MAX_PORTS)| < MAX_PORTS
    ensures IsScan(Exec(xs), x) <==>
              |FirstDistinct(PortsOf(xs + [x], x.ip), MAX_PORTS)| >= SCAN_THRESHOLD
  {
    ScanIff(xs, x);
    FirstDistinctDistinct(PortsOf(xs, x.ip), MAX_PORTS);
    PortsSnoc(xs, x, x.ip);
  }

  // ---------------------------------------------------------------------
  // The detector
  // ---------------------------------------------------------------------

  class Detector {
    const ips: array<nat>
    const ports: array2<nat>
    const portCount: array<nat>
    var srcCount: nat
    var scanCount: nat
    ghost var table: seq<Source>

    /** Row `i` of the arrays holds the table's source `i`. */
    ghost predicate Row(i: nat)
      reads this`table, ips, ports, portCount
      requires ips.Length == portCount.Length == ports.Length0 == MAX_SOURCES && ports.Length1 == MAX_PORTS
      requires i < |table| && i < MAX_SOURCES
    {
      && ips[i] == table[i].ip
      && portCount[i] == |table[i].ports| <= MAX_PORTS
      && forall j | 0 <= j < portCount[i] :: ports[i, j] == table[i].ports[j]
    }

    ghost predicate Valid()
      reads this`table, this`srcCount, ips, ports, portCount
    {
      && ips.Length == portCount.Length == ports.Length0 == MAX_SOURCES && ports.Length1 == MAX_PORTS
      && ips != portCount
      && srcCount == |table| <= MAX_SOURCES
      && (forall i | 0 <= i < |table| :: Row(i))
      && (forall i | |table| <= i < MAX_SOURCES :: portCount[i] == 0)
    }

    constructor ()
      ensures Valid() && table == Exec([]) && scanCount == 0
      ensures fresh(ips) && fresh(ports) && fresh(portCount)
    {
      ips := new nat[MAX_SOURCES](_ => 0);
      ports := new nat[MAX_SOURCES, MAX_PORTS]((_, _) => 0);
      portCount := new nat[MAX_SOURCES](_ => 0);
      srcCount, scanCount := 0, 0;
      table := [];
    }

    /** find_src; the number of sources means there is no slot. */
    method FindSource(ip: nat) returns (i: nat)
      requires Valid()
      modifies this`srcCount, this`table, ips
      ensures Valid() && table == WithSource(old(table), ip) && i == FindFrom(table, ip, 0)
    {
      i := 0;
      while i < srcCount
        invariant i <= srcCount && Valid() && table == old(table) && srcCount == old(srcCount)
        invariant FindFrom(table, ip, 0) == FindFrom(table, ip, i)
      {
        assert Row(i);
        if ips[i] == ip {
          return;
        }
        i := i + 1;
      }
      if srcCount < MAX_SOURCES {
        NotFound(table, ip);
        label before:
        ips[srcCount] := ip;
        table := table + [Source(ip, [])];
        srcCount := srcCount + 1;
        forall k | 0 <= k < |table|
          ensures Row(k)
        {
          assert k < |table| - 1 ==> old@before(Row(k));
        }
      }
    }

    /** port_seen. */
    method PortSeen(i: nat, port: nat) returns (seen: bool)
      requires Valid() && i < |table|
      ensures seen == (port in table[i].ports)
    {
      var j := 0;
      while j < portCount[i] && j < MAX_PORTS
        invariant 0 <= j <= portCount[i] && Row(i)
        invariant forall k | 0 <= k < j :: table[i].ports[k] != port
      {
        if ports[i, j] == port {
          assert table[i].ports[j] == port;
          return true;
        }
        j := j + 1;
      }
      seen := false;
    }

    /** The port-scan part of anomaly_check_flow; the answer is whether it reports a scan. */
    method CheckFlow(x: Touch) returns (scan: bool)
      requires Valid()
      modifies this, ips, ports, portCount
      ensures Valid() && table == Step(old(table), x) && scan == IsScan(old(table), x)
      ensures scanCount == old(scanCount) + if scan then 1 else 0
    {
      scan := false;
      var i := FindSource(x.ip);
      if i == srcCount {
        return;
      }
      var seen := PortSeen(i, x.port);
      if !seen && x.port > 0 {
        StorePort(i, x.port);
        if portCount[i] >= SCAN_THRESHOLD {
          scanCount := scanCount + 1;
          scan := true;
        }
      }
    }

    /** Appends the port unless the row is full. */
    method StorePort(i: nat, port: nat)
      requires Valid() && i < |table| && port > 0 && port !in table[i].ports
      modifies this`table, ports, portCount
      ensures Valid() && portCount[i] == |table[i].ports|
      ensures table == old(table)[i := Source(old(table)[i].ip, AddPort(old(table)[i].ports, port))]
    {
      assert Row(i);
      if portCount[i] < MAX_PORTS {
        label before:
        ports[i, portCount[i]] := port;
        portCount[i] := portCount[i] + 1;
        table := table[i := Source(table[i].ip, table[i].ports + [port])];
        forall k | 0 <= k < |table|
          ensures Row(k)
        {
          assert old@before(Row(k));
        }
      }
      assert Row(i);
    }
  }

  lemma NotFound(table: seq<Source>, ip: nat)
    requires FindFrom(table, ip, 0) == |table|
    ensures FindFrom(table + [Source(ip, [])], ip, 0) == |table|
  {
    var t := table + [Source(ip, [])];
    assert forall j | 0 <= j < |table| :: t[j] == table[j];
    assert t[|table|].ip == ip;
  }
}
