/**
 Gateway lists of `config.rs`: first-wins deduplication, and the resolution of the
 list a node boots with from the remote index, inline entries, the saved file and the
 command line.
 */
module Gateways {
  import opened Wrappers

  datatype Address =
    | Host(host: string, port: nat)
    | Hostname(name: string)
    | HostAddress(socketAddr: string)

  datatype Gateway = Gateway(address: Address, publicKeyPath: string, location: Option<real>)

  datatype Mode = Local | Network

  function Addresses(s: seq<Gateway>): set<Address> {
    set g | g in s :: g.address
  }

  predicate NoDuplicates(s: seq<Gateway>) {
    forall i, j :: 0 <= i < j < |s| ==> s[i].address != s[j].address
  }

  /** Keeps the first entry of every address, in order. */
  function Dedup(s: seq<Gateway>): seq<Gateway> {
    if s == [] then []
    else
      var front, last := s[..|s| - 1], s[|s| - 1];
      if last.address in Addresses(front) then Dedup(front) else Dedup(front) + [last]
  }

  /** `Gateways` of the source: a list that other lists are merged into. */
  class GatewayList {
    var gateways: seq<Gateway>

    constructor (gateways: seq<Gateway>)
      ensures this.gateways == gateways
    {
      this.gateways := gateways;
    }

    method MergeAndDeduplicate(other: seq<Gateway>)
      modifies this
      ensures gateways == Dedup(old(gateways) + other)
    {
      var all := gateways + other;
      var seen: set<Address> := {};
      var merged: seq<Gateway> := [];
      for i := 0 to |all|
        invariant seen == Addresses(all[..i])
        invariant merged == Dedup(all[..i])
      {
        assert all[..i + 1] == all[..i] + [all[i]];
        AddressesAppend(all[..i], [all[i]]);
        if all[i].address !in seen {
          seen := seen + {all[i].address};
          merged := merged + [all[i]];
        }
      }
      assert all[..|all|] == all;
      gateways := merged;
    }
  }

  lemma AddressesAppend(a: seq<Gateway>, b: seq<Gateway>)
    ensures Addresses(a + b) == Addresses(a) + Addresses(b)
    ensures |b| == 1 ==> Addresses(a + b) == Addresses(a) + {b[0].address}
  {
    forall x | x in Addresses(a) + Addresses(b) ensures x in Addresses(a + b) {
      if x in Addresses(a) {
        var g :| g in a && g.address == x;
        assert g in a + b;
      } else {
        var g :| g in b && g.address == x;
        assert g in a + b;
      }
    }
  }

  lemma DedupSnoc(s: seq<Gateway>, g: Gateway)
    ensures Dedup(s + [g]) == if g.address in Addresses(s) then Dedup(s) else Dedup(s) + [g]
  {
    assert (s + [g])[..|s|] == s;
  }

  lemma {:induction false} DedupAddresses(s: seq<Gateway>)
    ensures Addresses(Dedup(s)) == Addresses(s)
  {
    if s == [] {
    } else {
      var front, last := s[..|s| - 1], s[|s| - 1];
      assert s == front + [last];
      DedupAddresses(front);
      AddressesAppend(front, [last]);
      AddressesAppend(Dedup(front), [last]);
    }
  }

  /** What was kept from the first part stays in front. */
  lemma {:induction false} DedupPrefix(a: seq<Gateway>, b: seq<Gateway>)
    ensures Dedup(a) <= Dedup(a + b)
  {
    if b == [] {
      assert a + b == a;
    } else {
      DedupPrefix(a, b[..|b| - 1]);
      assert a + b == (a + b[..|b| - 1]) + [b[|b| - 1]];
      DedupSnoc(a + b[..|b| - 1], b[|b| - 1]);
    }
  }

  /** Deduplicating the left part first changes nothing. */
  lemma {:induction false} DedupLeft(a: seq<Gateway>, b: seq<Gateway>)
    ensures Dedup(Dedup(a) + b) == Dedup(a + b)
  {
    hide Dedup;
    if b == [] {
      assert a + b == a && Dedup(a) + b == Dedup(a);
      DedupIdempotent(a);
    } else {
      var front, last := b[..|b| - 1], b[|b| - 1];
      DedupLeft(a, front);
      assert a + b == (a + front) + [last];
      assert Dedup(a) + b == (Dedup(a) + front) + [last];
      DedupSnoc(a + front, last);
      DedupSnoc(Dedup(a) + front, last);
      AddressesAppend(a, front);
      AddressesAppend(Dedup(a), front);
      DedupAddresses(a);
    }
  }

  /** Neither does deduplicating the right part first. */
  lemma {:induction false} DedupRight(a: seq<Gateway>, b: seq<Gateway>)
    ensures Dedup(a + Dedup(b)) == Dedup(a + b)
  {
    hide Dedup;
    if b == [] {
      DedupOfEmpty(b);
    } else {
      var front, last := b[..|b| - 1], b[|b| - 1];
      DedupRight(a, front);
      assert b == front + [last] && a + b == (a + front) + [last];
      DedupSnoc(front, last);
      DedupSnoc(a + front, last);
      AddressesAppend(a, front);
      if last.address !in Addresses(front) {
        assert a + Dedup(b) == (a + Dedup(front)) + [last];
        DedupSnoc(a + Dedup(front), last);
        AddressesAppend(a, Dedup(front));
        DedupAddresses(front);
      }
    }
  }

  lemma {:induction false} DedupIdempotent(s: seq<Gateway>)
    ensures Dedup(Dedup(s)) == Dedup(s)
  {
    if s == [] {
    } else {
      var front, last := s[..|s| - 1], s[|s| - 1];
      DedupIdempotent(front);
      DedupAddresses(front);
      if last.address !in Addresses(front) {
        DedupSnoc(Dedup(front), last);
      }
    }
  }

  // ----- What first-wins deduplication means -----

  /** The position of the first entry with the address. */
  function FirstIndex(s: seq<Gateway>, a: Address): (i: nat)
    requires a in Addresses(s)
    ensures i < |s| && s[i].address == a
    ensures forall j :: 0 <= j < i ==> s[j].address != a
  {
    if s[0].address == a then 0
    else
      assert s == [s[0]] + s[1..];
      assert a in Addresses(s[1..]) by {
        var g :| g in s && g.address == a;
        assert g in s[1..];
      }
      1 + FirstIndex(s[1..], a)
  }

  lemma FirstIndexIs(s: seq<Gateway>, a: Address, i: nat)
    requires i < |s| && s[i].address == a && forall j :: 0 <= j < i ==> s[j].address != a
    ensures a in Addresses(s) && FirstIndex(s, a) == i
  {
    assert s[i] in s;
  }

  lemma FirstIndexSnoc(s: seq<Gateway>, g: Gateway, a: Address)
    requires a in Addresses(s + [g])
    ensures FirstIndex(s + [g], a) == if a in Addresses(s) then FirstIndex(s, a) else |s|
  {
    AddressesAppend(s, [g]);
    if a in Addresses(s) {
      FirstIndexIs(s + [g], a, FirstIndex(s, a));
    } else {
      forall j | 0 <= j < |s| ensures s[j].address != a { assert s[j] in s; }
      FirstIndexIs(s + [g], a, |s|);
    }
  }

  lemma {:induction false} DedupNoDuplicates(s: seq<Gateway>)
    ensures NoDuplicates(Dedup(s))
  {
    if s == [] {
    } else {
      var front := s[..|s| - 1];
      DedupNoDuplicates(front);
      DedupAddresses(front);
      hide Dedup;
      DedupSnoc(front, s[|s| - 1]);
      assert s == front + [s[|s| - 1]];
      forall i | 0 <= i < |Dedup(front)| ensures Dedup(front)[i].address in Addresses(front) {
        assert Dedup(front)[i] in Dedup(front);
      }
    }
  }

  /** How the first position of an address moves when one entry is added behind. */
  lemma DedupFirstIndex(front: seq<Gateway>, last: Gateway, a: Address)
    requires a in Addresses(front + [last])
    ensures a in Addresses(Dedup(front + [last])) && Addresses(Dedup(front)) == Addresses(front)
    ensures FirstIndex(Dedup(front + [last]), a)
         == if a in Addresses(front) then FirstIndex(Dedup(front), a) else |Dedup(front)|
  {
    hide Dedup, FirstIndex;
    DedupAddresses(front);
    DedupAddresses(front + [last]);
    DedupSnoc(front, last);
    AddressesAppend(front, [last]);
    if last.address !in Addresses(front) {
      FirstIndexSnoc(Dedup(front), last, a);
    }
  }

  lemma {:induction false} DedupFirstEntry(s: seq<Gateway>, a: Address)
    requires a in Addresses(s)
    ensures a in Addresses(Dedup(s))
    ensures Dedup(s)[FirstIndex(Dedup(s), a)] == s[FirstIndex(s, a)]
  {
    var front, last := s[..|s| - 1], s[|s| - 1];
    assert s == front + [last];
    AddressesAppend(front, [last]);
    DedupFirstIndex(front, last, a);
    FirstIndexSnoc(front, last, a);
    DedupSnoc(front, last);
    if a in Addresses(front) { DedupFirstEntry(front, a); }
    hide Dedup, FirstIndex;
  }

  lemma {:induction false} DedupOrder(s: seq<Gateway>, a: Address, b: Address)
    requires a in Addresses(s) && b in Addresses(s) && FirstIndex(s, a) < FirstIndex(s, b)
    ensures Addresses(Dedup(s)) == Addresses(s)
    ensures FirstIndex(Dedup(s), a) < FirstIndex(Dedup(s), b)
  {
    DedupAddresses(s);
    var front, last := s[..|s| - 1], s[|s| - 1];
    assert s == front + [last];
    hide Dedup, FirstIndex;
    AddressesAppend(front, [last]);
    FirstIndexSnoc(front, last, a);
    FirstIndexSnoc(front, last, b);
    DedupFirstIndex(front, last, a);
    DedupFirstIndex(front, last, b);
    if a in Addresses(front) && b in Addresses(front) { DedupOrder(front, a, b); }
  }

  /**
   The list after merging has every address once, with the entry that came first, and
   in the order in which the addresses first came.
   */
  lemma DedupMeaning(s: seq<Gateway>)
    ensures NoDuplicates(Dedup(s))
    ensures Addresses(Dedup(s)) == Addresses(s)
    ensures forall a :: a in Addresses(s) ==> Dedup(s)[FirstIndex(Dedup(s), a)] == s[FirstIndex(s, a)]
    ensures forall a, b :: a in Addresses(s) && b in Addresses(s) && FirstIndex(s, a) < FirstIndex(s, b) ==>
                             FirstIndex(Dedup(s), a) < FirstIndex(Dedup(s), b)
  {
    hide Dedup, FirstIndex;
    DedupNoDuplicates(s);
    DedupAddresses(s);
    forall a | a in Addresses(s) ensures Dedup(s)[FirstIndex(Dedup(s), a)] == s[FirstIndex(s, a)] {
      DedupFirstEntry(s, a);
    }
    forall a, b | a in Addresses(s) && b in Addresses(s) && FirstIndex(s, a) < FirstIndex(s, b)
      ensures FirstIndex(Dedup(s), a) < FirstIndex(Dedup(s), b)
    {
      DedupOrder(s, a, b);
    }
  }

  /** `gateways_dropped_by_remote_replace`: the saved addresses that the index does not list. */
  function DroppedByRemote(saved: seq<Gateway>, remote: seq<Gateway>): seq<Address> {
    if saved == [] then []
    else
      DroppedByRemote(saved[..|saved| - 1], remote)
      + (if saved[|saved| - 1].address in Addresses(remote) then [] else [saved[|saved| - 1].address])
  }

  lemma {:induction false} DroppedExactly(saved: seq<Gateway>, remote: seq<Gateway>, a: Address)
    ensures a in DroppedByRemote(saved, remote) <==> a in Addresses(saved) && a !in Addresses(remote)
  {
    if saved == [] {
    } else {
      var front, last := saved[..|saved| - 1], saved[|saved| - 1];
      DroppedExactly(front, remote, a);
      assert saved == front + [last];
      AddressesAppend(front, [last]);
    }
  }

  // ----- Resolution at boot -----

  /** Entries of the hidden `--gateways` flag. */
  datatype Inline = NoInline | MalformedInline | InlineEntries(gateways: seq<Gateway>)

  /** `gateways.toml`: cannot be opened, does not parse, or holds a list. */
  datatype GatewaysFile = Missing | Malformed | Saved(gateways: seq<Gateway>)

  /** One `--gateway` value. */
  datatype CliEntry = Unparsable | Parsed(gateway: Gateway)

  datatype GatewayError = BadInlineEntry | BadGatewaysFile | NoGateways | BadCliEntry

  /** What the resolution looks at, besides the saved file. */
  datatype Inputs = Inputs(
    mode: Mode, skipLoad: bool, isGateway: bool, hasPeerId: bool,
    remote: seq<Gateway>,             // empty when the index cannot be fetched
    inlined: Inline,
    cli: Option<seq<CliEntry>>)

  predicate HasCliGateways(i: Inputs) {
    i.cli.Some? && i.cli.value != []
  }

  /** The entries known before the saved file is looked at. */
  function Loaded(i: Inputs): Result<seq<Gateway>, GatewayError> {
    if i.mode == Local then Ok([])
    else if !i.skipLoad then Ok(i.remote)
    else
      match i.inlined
      case NoInline => Ok([])
      case MalformedInline => Err(BadInlineEntry)
      case InlineEntries(gateways) => Ok(gateways)
  }

  /** The list from the saved file, merged with what was loaded. */
  function FromFile(i: Inputs, file: GatewaysFile, loaded: seq<Gateway>): Result<seq<Gateway>, GatewayError> {
    match file
    case Malformed => Err(BadGatewaysFile)
    case Missing =>
      if !i.hasPeerId && !i.isGateway && i.mode == Network && loaded == [] && !HasCliGateways(i) then Err(NoGateways)
      else Ok(if loaded == [] then [] else Dedup([] + loaded))
    case Saved(saved) => Ok(if loaded == [] then saved else Dedup(saved + loaded))
  }

  /** The list before `--gateway` entries are put in front. */
  function Base(i: Inputs, file: GatewaysFile): Result<seq<Gateway>, GatewayError> {
    match Loaded(i)
    case Err(e) => Err(e)
    case Ok(loaded) =>
      if i.mode == Local then Ok([])
      else if !i.skipLoad && loaded != [] then Ok(loaded)
      else if i.skipLoad && i.isGateway then Ok(loaded)
      else if i.skipLoad && HasCliGateways(i) then Ok(loaded)
      else FromFile(i, file, loaded)
  }

  predicate AllParsed(entries: seq<CliEntry>) {
    forall k :: 0 <= k < |entries| ==> entries[k].Parsed?
  }

  function CliGateways(entries: seq<CliEntry>): seq<Gateway>
    requires AllParsed(entries)
  {
    seq(|entries|, k requires 0 <= k < |entries| => entries[k].gateway)
  }

  function Resolve(i: Inputs, file: GatewaysFile): Result<seq<Gateway>, GatewayError> {
    match Base(i, file)
    case Err(e) => Err(e)
    case Ok(list) =>
      if i.cli.None? then Ok(list)
      else if !AllParsed(i.cli.value) then Err(BadCliEntry)
      else Ok(Dedup(CliGateways(i.cli.value) + list))
  }

  /** A nonempty remote index is saved at once, before anything later can fail. */
  function FileAfterResolve(i: Inputs, file: GatewaysFile): GatewaysFile {
    if i.mode == Network && !i.skipLoad && i.remote != [] then Saved(i.remote) else file
  }

  /** The command-line pass of the source: skip repeated addresses, then merge the rest behind. */
  method MergeCliEntries(entries: seq<CliEntry>, list: seq<Gateway>) returns (r: Result<seq<Gateway>, GatewayError>)
    ensures r == if AllParsed(entries) then Ok(Dedup(CliGateways(entries) + list)) else Err(BadCliEntry)
  {
    var parsed := CollectCliEntries(entries);
    if parsed.Err? {
      return parsed;
    }
    var cli := new GatewayList(parsed.value);
    cli.MergeAndDeduplicate(list);
    DedupLeft(CliGateways(entries), list);
    r := Ok(cli.gateways);
  }

  method CollectCliEntries(entries: seq<CliEntry>) returns (r: Result<seq<Gateway>, GatewayError>)
    ensures r == if AllParsed(entries) then Ok(Dedup(CliGateways(entries))) else Err(BadCliEntry)
  {
    hide Dedup;
    var seen: set<Address> := {};
    var kept: seq<Gateway> := [];
    assert kept == Dedup(CliGateways(entries[..0])) by { DedupOfEmpty(CliGateways(entries[..0])); }
    for k := 0 to |entries|
      invariant AllParsed(entries[..k])
      invariant seen == Addresses(CliGateways(entries[..k]))
      invariant kept == Dedup(CliGateways(entries[..k]))
    {
      if entries[k].Unparsable? {
        return Err(BadCliEntry);
      }
      var g := entries[k].gateway;
      assert CliGateways(entries[..k + 1]) == CliGateways(entries[..k]) + [g];
      DedupSnoc(CliGateways(entries[..k]), g);
      AddressesAppend(CliGateways(entries[..k]), [g]);
      if g.address !in seen {
        seen := seen + {g.address};
        kept := kept + [g];
      }
    }
    assert entries[..|entries|] == entries;
    r := Ok(kept);
  }

  lemma DedupOfEmpty(s: seq<Gateway>)
    requires s == []
    ensures Dedup(s) == []
  {
  }

  /** Command-line entries are the head of the list, in order and without repetition. */
  lemma CliGatewaysLead(i: Inputs, file: GatewaysFile)
    requires i.cli.Some? && Resolve(i, file).Ok?
    ensures NoDuplicates(Resolve(i, file).value)
    ensures AllParsed(i.cli.value)
    ensures Dedup(CliGateways(i.cli.value)) <= Resolve(i, file).value
  {
    var cli := CliGateways(i.cli.value);
    var list := Base(i, file).value;
    DedupMeaning(cli + list);
    DedupPrefix(cli, list);
  }

  /** The node consults gateways.toml: on the network, without index, and not isolated. */
  predicate ReadsFile(i: Inputs) {
    && i.mode == Network
    && if i.skipLoad then !i.isGateway && (i.cli.None? || i.cli.value == []) else i.remote == []
  }

  function InlineList(i: Inputs): seq<Gateway> {
    if i.mode == Network && i.skipLoad && i.inlined.InlineEntries? then i.inlined.gateways else []
  }

  predicate InlineFails(i: Inputs) {
    i.mode == Network && i.skipLoad && i.inlined.MalformedInline?
  }

  predicate FileFails(i: Inputs, file: GatewaysFile) {
    ReadsFile(i) && file.Malformed? && !InlineFails(i)
  }

  /** Nobody to join through, and no public identity to be joined at. */
  predicate NobodyToJoin(i: Inputs, file: GatewaysFile) {
    && ReadsFile(i) && file.Missing? && !InlineFails(i)
    && InlineList(i) == [] && (i.cli.None? || i.cli.value == []) && !i.hasPeerId && !i.isGateway
  }

  /** When the choice of the list fails, and with what. */
  lemma ResolveFailsExactly(i: Inputs, file: GatewaysFile)
    ensures Resolve(i, file) == Err(BadInlineEntry) <==> InlineFails(i)
    ensures Resolve(i, file) == Err(BadGatewaysFile) <==> FileFails(i, file)
    ensures Resolve(i, file) == Err(NoGateways) <==> NobodyToJoin(i, file)
    ensures Resolve(i, file) == Err(BadCliEntry) <==>
      && i.cli.Some? && !AllParsed(i.cli.value)
      && !InlineFails(i) && !FileFails(i, file) && !NobodyToJoin(i, file)
  {
    hide Dedup;
  }

  /** Behind the command line: nothing locally, the index, the saved list, or saved and inline entries. */
  lemma ListOf(i: Inputs, file: GatewaysFile)
    requires Resolve(i, file).Ok?
    ensures i.cli.Some? ==> AllParsed(i.cli.value)
    ensures var saved := if ReadsFile(i) && file.Saved? then file.gateways else [];
      var rest :=
        if i.mode == Network && !i.skipLoad && i.remote != [] then i.remote
        else if InlineList(i) == [] then saved
        else if ReadsFile(i) then Dedup(saved + InlineList(i))
        else InlineList(i);
      Resolve(i, file).value == if i.cli.Some? then Dedup(CliGateways(i.cli.value) + rest) else rest
  {
    hide Dedup, CliGateways;
  }

  /**
   The list of a node that skips the network without being isolated: the saved list as
   it is; with inline entries, both, the saved entry winning where they collide.
   */
  lemma SkippingList(i: Inputs, saved: seq<Gateway>)
    requires i.mode == Network && i.skipLoad && !i.isGateway && i.cli.None? && !i.inlined.MalformedInline?
    ensures Resolve(i, Saved(saved)).Ok?
    ensures InlineList(i) == [] ==> Resolve(i, Saved(saved)).value == saved
    ensures InlineList(i) != [] ==>
      var r, inlined := Resolve(i, Saved(saved)).value, InlineList(i);
      && NoDuplicates(r) && Addresses(r) == Addresses(saved) + Addresses(inlined)
      && (forall a :: a in Addresses(r) ==>
            r[FirstIndex(r, a)] ==
            if a in Addresses(saved) then saved[FirstIndex(saved, a)] else inlined[FirstIndex(inlined, a)])
  {
    hide Dedup, FirstIndex;
    var inlined := InlineList(i);
    if inlined != [] { MergedEntries(saved, inlined); }
  }

  /**
   The list of an isolated node, a gateway or one with `--gateway`: command-line and
   inline entries, those of the command line winning where they collide.
   */
  lemma IsolatedList(i: Inputs, file: GatewaysFile)
    requires i.mode == Network && i.skipLoad && Resolve(i, file).Ok?
    requires i.isGateway || (i.cli.Some? && i.cli.value != [])
    ensures i.cli.None? ==> Resolve(i, file).value == InlineList(i)
    ensures i.cli.Some? ==>
      && AllParsed(i.cli.value)
      && var r, cli, inlined := Resolve(i, file).value, CliGateways(i.cli.value), InlineList(i);
         && NoDuplicates(r) && Addresses(r) == Addresses(cli) + Addresses(inlined)
         && (forall a :: a in Addresses(r) ==>
               r[FirstIndex(r, a)] ==
               if a in Addresses(cli) then cli[FirstIndex(cli, a)] else inlined[FirstIndex(inlined, a)])
  {
    hide Dedup, FirstIndex, CliGateways;
    if i.cli.Some? { MergedEntries(CliGateways(i.cli.value), InlineList(i)); }
  }

  /** Merging keeps the first list's entry of every address, and of the others the second's. */
  lemma MergedEntries(first: seq<Gateway>, second: seq<Gateway>)
    ensures var r := Dedup(first + second);
      && NoDuplicates(r) && Addresses(r) == Addresses(first) + Addresses(second)
      && (forall a :: a in Addresses(r) ==>
            r[FirstIndex(r, a)] ==
            if a in Addresses(first) then first[FirstIndex(first, a)] else second[FirstIndex(second, a)])
  {
    hide Dedup, FirstIndex;
    DedupMeaning(first + second);
    AddressesAppend(first, second);
    forall a | a in Addresses(first + second)
      ensures (first + second)[FirstIndex(first + second, a)] ==
        if a in Addresses(first) then first[FirstIndex(first, a)] else second[FirstIndex(second, a)]
    {
      FirstIndexAppend(first, second, a);
    }
  }

  lemma FirstIndexAppend(first: seq<Gateway>, second: seq<Gateway>, a: Address)
    requires a in Addresses(first + second)
    ensures a in Addresses(first) || a in Addresses(second)
    ensures FirstIndex(first + second, a) ==
      if a in Addresses(first) then FirstIndex(first, a) else |first| + FirstIndex(second, a)
  {
    AddressesAppend(first, second);
    if a in Addresses(first) {
      FirstIndexIs(first + second, a, FirstIndex(first, a));
    } else {
      forall j | 0 <= j < |first| ensures first[j].address != a { assert first[j] in first; }
      FirstIndexIs(first + second, a, |first| + FirstIndex(second, a));
    }
  }

  /** An isolated node's list depends neither on the saved file nor on the remote index. */
  lemma Isolation(i: Inputs, file: GatewaysFile, file': GatewaysFile, remote': seq<Gateway>)
    requires i.skipLoad && (i.isGateway || HasCliGateways(i))
    ensures Resolve(i, file) == Resolve(i.(remote := remote'), file')
    ensures FileAfterResolve(i, file) == file
  {
  }
}
