/** The scheduler's GPU list: what SLURM and Flux jobs read from it. */
module GpuLists {
  import opened Wrappers
  import opened GoStrings

  const MIG_PREFIX := "MIG-"

  /** The trimmed comma-separated entries. */
  function Entries(gpus: string): seq<string> {
    TrimAll(Split(gpus, ','))
  }

  function TrimAll(parts: seq<string>): (ts: seq<string>)
    ensures |ts| == |parts|
  {
    seq(|parts|, i requires 0 <= i < |parts| => TrimSpace(parts[i]))
  }

  /** The entries that are integers, in order. */
  function Integers(entries: seq<string>): seq<int> {
    if entries == [] then [] else
      var init, last := Integers(entries[..|entries| - 1]), Atoi(entries[|entries| - 1]);
      if last.Some? then init + [last.value] else init
  }

  /** The entries that name MIG instances, in order. */
  function Migs(entries: seq<string>): seq<string> {
    if entries == [] then [] else
      var init, last := Migs(entries[..|entries| - 1]), entries[|entries| - 1];
      if HasPrefix(last, MIG_PREFIX) then init + [last] else init
  }

  function Devices(gpus: string): seq<int> { Integers(Entries(gpus)) }

  function Uuids(gpus: string): seq<string> { Migs(Entries(gpus)) }

  lemma TrimAllPrefix(parts: seq<string>, i: nat)
    requires i < |parts|
    ensures TrimAll(parts[..i + 1]) == TrimAll(parts[..i]) + [TrimSpace(parts[i])]
  {
  }

  lemma EmptyList()
    ensures Devices("") == [] && Uuids("") == []
  {
    assert Entries("") == [""];
    assert [""][..0] == [];
  }

  /** The loop of both schedulers' `VisibleDevices`. */
  method CollectIntegers(gpus: string) returns (devs: seq<int>)
    ensures devs == Devices(gpus)
  {
    devs := [];
    if gpus == "" {
      EmptyList();
      return;
    }
    var parts := Split(gpus, ',');
    for i := 0 to |parts|
      invariant devs == Integers(TrimAll(parts[..i]))
    {
      var p := TrimSpace(parts[i]);
      var idx := Atoi(p);
      if idx.Some? {
        devs := devs + [idx.value];
      }
      TrimAllPrefix(parts, i);
      assert TrimAll(parts[..i + 1])[..i] == TrimAll(parts[..i]);
    }
    assert parts[..|parts|] == parts;
  }

  /** The loop of both schedulers' `MIGUUIDs`. */
  method CollectMigs(gpus: string) returns (uuids: seq<string>)
    ensures uuids == Uuids(gpus)
  {
    uuids := [];
    if gpus == "" {
      EmptyList();
      return;
    }
    var parts := Split(gpus, ',');
    for i := 0 to |parts|
      invariant uuids == Migs(TrimAll(parts[..i]))
    {
      var p := TrimSpace(parts[i]);
      if HasPrefix(p, MIG_PREFIX) {
        uuids := uuids + [p];
      }
      TrimAllPrefix(parts, i);
      assert TrimAll(parts[..i + 1])[..i] == TrimAll(parts[..i]);
    }
    assert parts[..|parts|] == parts;
  }

  // ----- Concatenation -----

  lemma {:induction false} IntegersConcat(a: seq<string>, b: seq<string>)
    ensures Integers(a + b) == Integers(a) + Integers(b)
  {
    if b == [] {
      assert a + b == a;
    } else {
      IntegersConcat(a, b[..|b| - 1]);
      assert (a + b)[..|a + b| - 1] == a + b[..|b| - 1];
    }
  }

  lemma {:induction false} MigsConcat(a: seq<string>, b: seq<string>)
    ensures Migs(a + b) == Migs(a) + Migs(b)
  {
    if b == [] {
      assert a + b == a;
    } else {
      MigsConcat(a, b[..|b| - 1]);
      assert (a + b)[..|a + b| - 1] == a + b[..|b| - 1];
    }
  }

  /** Both parsers distribute over comma concatenation, on any two strings. */
  lemma ListsConcatenate(a: string, b: string)
    ensures Devices(a + "," + b) == Devices(a) + Devices(b)
    ensures Uuids(a + "," + b) == Uuids(a) + Uuids(b)
  {
    SplitConcat(a, b, ',');
    assert Entries(a + "," + b) == Entries(a) + Entries(b);
    IntegersConcat(Entries(a), Entries(b));
    MigsConcat(Entries(a), Entries(b));
  }

  // ----- Round trips -----

  /** White space before and after an entry. */
  datatype Padding = Padding(lead: string, trail: string) {
    predicate Blank() { AllSpace(lead) && AllSpace(trail) }
  }

  /** Entries as a scheduler may print them, each with its own padding. */
  function Padded(entries: seq<string>, pads: seq<Padding>): (parts: seq<string>)
    requires |pads| == |entries|
    ensures |parts| == |entries|
  {
    seq(|entries|, i requires 0 <= i < |entries| => pads[i].lead + entries[i] + pads[i].trail)
  }

  /** Joining padded, comma-free entries and reading the list back yields the entries. */
  lemma EntriesRoundTrip(entries: seq<string>, pads: seq<Padding>)
    requires entries != [] && |pads| == |entries|
    requires forall i :: 0 <= i < |entries| ==>
               pads[i].Blank() && entries[i] != "" && Trimmed(entries[i]) && ',' !in entries[i]
    ensures Entries(Join(Padded(entries, pads), ',')) == entries
  {
    var parts := Padded(entries, pads);
    forall i | 0 <= i < |parts|
      ensures ',' !in parts[i] && TrimSpace(parts[i]) == entries[i]
    {
      assert !IsSpace(',');
      TrimPadded(pads[i].lead, entries[i], pads[i].trail);
    }
    SplitJoin(parts, ',');
    assert TrimAll(parts) == entries;
  }

  function Printed(devices: seq<int>): (entries: seq<string>)
    ensures |entries| == |devices|
  {
    seq(|devices|, i requires 0 <= i < |devices| => Itoa(devices[i]))
  }

  lemma {:induction false} IntegersOfPrinted(devices: seq<int>)
    requires forall i :: 0 <= i < |devices| ==> MIN_INT <= devices[i] <= MAX_INT
    ensures Integers(Printed(devices)) == devices
  {
    if devices == [] {
    } else {
      var init, last := devices[..|devices| - 1], devices[|devices| - 1];
      IntegersOfPrinted(init);
      AtoiItoa(last);
      assert Printed(devices)[..|devices| - 1] == Printed(init);
    }
  }

  /** Parsing a printed device list gives the list back, whatever white space surrounds the commas. */
  lemma DevicesRoundTrip(devices: seq<int>, pads: seq<Padding>)
    requires |pads| == |devices|
    requires forall i :: 0 <= i < |devices| ==> MIN_INT <= devices[i] <= MAX_INT && pads[i].Blank()
    ensures Devices(Join(Padded(Printed(devices), pads), ',')) == devices
  {
    if devices == [] {
      EmptyList();
    } else {
      forall i | 0 <= i < |devices|
        ensures var e := Printed(devices)[i]; e != "" && Trimmed(e) && ',' !in e
      {
        ItoaCharacters(devices[i]);
      }
      EntriesRoundTrip(Printed(devices), pads);
      IntegersOfPrinted(devices);
    }
  }

  predicate IsMigName(s: string) {
    HasPrefix(s, "MIG-") && Trimmed(s) && ',' !in s
  }

  lemma {:induction false} MigsOfMigs(names: seq<string>)
    requires forall i :: 0 <= i < |names| ==> HasPrefix(names[i], MIG_PREFIX)
    ensures Migs(names) == names
  {
    if names == [] {
    } else {
      MigsOfMigs(names[..|names| - 1]);
    }
  }

  /** Parsing a joined list of MIG identifiers gives the identifiers back. */
  lemma UuidsRoundTrip(names: seq<string>, pads: seq<Padding>)
    requires |pads| == |names|
    requires forall i :: 0 <= i < |names| ==> IsMigName(names[i]) && pads[i].Blank()
    ensures Uuids(Join(Padded(names, pads), ',')) == names
  {
    if names == [] {
      EmptyList();
    } else {
      EntriesRoundTrip(names, pads);
      MigsOfMigs(names);
    }
  }

  // ----- The two parsers share the entries between them -----

  /** All positions whose entries satisfy a test, in order. */
  function Positions(entries: seq<string>, test: string -> bool): (ks: seq<nat>)
    ensures forall a :: 0 <= a < |ks| ==> ks[a] < |entries| && test(entries[ks[a]])
    ensures forall a, b :: 0 <= a < b < |ks| ==> ks[a] < ks[b]
    ensures forall k :: 0 <= k < |entries| && test(entries[k]) ==> k in ks
  {
    if entries == [] then [] else
      var last := |entries| - 1;
      var ks := Positions(entries[..last], test);
      if test(entries[last]) then ks + [last] else ks
  }

  predicate IsInteger(s: string) { Atoi(s).Some? }

  predicate IsMig(s: string) { HasPrefix(s, "MIG-") }

  /** The device list is the subsequence of the entries at the integer positions. */
  lemma {:induction false} IntegersArePicked(entries: seq<string>)
    ensures var ks := Positions(entries, IsInteger);
            && |Integers(entries)| == |ks|
            && forall a :: 0 <= a < |ks| ==> Atoi(entries[ks[a]]) == Some(Integers(entries)[a])
  {
    if entries == [] {
    } else {
      IntegersArePicked(entries[..|entries| - 1]);
    }
  }

  /** The MIG list is the subsequence of the entries at the MIG positions. */
  lemma {:induction false} MigsArePicked(entries: seq<string>)
    ensures var ms := Positions(entries, IsMig);
            && |Migs(entries)| == |ms|
            && forall a :: 0 <= a < |ms| ==> entries[ms[a]] == Migs(entries)[a]
  {
    if entries == [] {
    } else {
      MigsArePicked(entries[..|entries| - 1]);
    }
  }

  /** No entry is picked by both parsers. */
  lemma ListsAreDisjoint(entries: seq<string>, k: nat)
    ensures !(k in Positions(entries, IsInteger) && k in Positions(entries, IsMig))
  {
    if k in Positions(entries, IsMig) {
      MigIsNoInteger(entries[k]);
    }
  }

  lemma MigIsNoInteger(s: string)
    requires HasPrefix(s, MIG_PREFIX)
    ensures Atoi(s) == None
  {
    assert s[0] == 'M' && s[0] in s && !IsDigit('M');
  }
}

module Slurm {
  import GpuLists

  /** The part of a SLURM job's context that names its GPUs. */
  datatype JobContext = JobContext(GPUs: string) {
    method VisibleDevices() returns (devs: seq<int>)
      ensures devs == GpuLists.Devices(GPUs)
    {
      devs := GpuLists.CollectIntegers(GPUs);
    }

    method MIGUUIDs() returns (uuids: seq<string>)
      ensures uuids == GpuLists.Uuids(GPUs)
    {
      uuids := GpuLists.CollectMigs(GPUs);
    }
  }
}

module Flux {
  import GpuLists

  /** The part of a Flux job's context that names its GPUs. */
  datatype JobContext = JobContext(GPUs: string) {
    method VisibleDevices() returns (devs: seq<int>)
      ensures devs == GpuLists.Devices(GPUs)
    {
      devs := GpuLists.CollectIntegers(GPUs);
    }

    method MIGUUIDs() returns (uuids: seq<string>)
      ensures uuids == GpuLists.Uuids(GPUs)
    {
      uuids := GpuLists.CollectMigs(GPUs);
    }
  }
}
