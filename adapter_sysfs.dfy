/** Adapter discovery over the Linux sysfs tree (internal/daemon/adapter_sysfs.go):
    every `hci*` directory or symlink under the root is one adapter, described by
    the optional files beside it. */
module Sysfs {
  import opened Wrappers
  import opened Text
  import opened Errors
  import opened Host
  import opened Adapters

  const DefaultSysfsBluetoothPath := "/sys/class/bluetooth"

  /** The provider remembers only the directory it enumerates. */
  datatype SysfsAdapterProvider = SysfsAdapterProvider(root: string)

  /** NewSysfsAdapterProvider: an empty path means the default root. */
  function NewSysfsAdapterProvider(path: string): (p: SysfsAdapterProvider)
    ensures p.root != ""
    ensures path != "" ==> p.root == path
    ensures path == "" ==> p.root == DefaultSysfsBluetoothPath
  {
    SysfsAdapterProvider(if path == "" then DefaultSysfsBluetoothPath else path)
  }

  /** DefaultAdapterProvider. */
  function DefaultAdapterProvider(): (p: SysfsAdapterProvider)
    ensures p == NewSysfsAdapterProvider("")
  {
    NewSysfsAdapterProvider(DefaultSysfsBluetoothPath)
  }

  /** readTrimmedFile: the trimmed contents, or "" when the file cannot be read. */
  function ReadTrimmedFile(h: Host, path: string): (r: string)
    ensures ReadFile(h, path).Failure? ==> r == ""
  {
    match ReadFile(h, path)
    case Failure(_) => ""
    case Success(data) => TrimSpace(data)
  }

  /** What readTrimmedFile returns has no surrounding whitespace left to trim. */
  lemma ReadTrimmedFileIsTrimmed(h: Host, path: string)
    ensures TrimSpace(ReadTrimmedFile(h, path)) == ReadTrimmedFile(h, path)
  {
    if ReadFile(h, path).Success? {
      TrimSpaceIdempotent(ReadFile(h, path).value);
    }
  }

  /** The spellings of "on" that parseBool accepts, in lower case. */
  const TrueWords: seq<string> := ["1", "true", "on", "yes", "y"]

  /** parseBool. */
  function ParseBool(value: string): bool
  {
    if value == "" then false
    else
      var v := ToLower(value);
      v == "1" || v == "true" || v == "on" || v == "yes" || v == "y"
  }

  /** parseBool accepts exactly the true-words in any letter case; "" and everything
      else read as false. */
  lemma ParseBoolIff(value: string)
    ensures ParseBool(value) <==> exists w :: w in TrueWords && EqualFold(value, w)
  {
    assert ToLower("1") == "1";
    assert ToLower("true") == "true";
    assert ToLower("on") == "on";
    assert ToLower("yes") == "yes";
    assert ToLower("y") == "y";
    if ParseBool(value) {
      var v := ToLower(value);
      var w := if v == "1" then "1" else if v == "true" then "true" else if v == "on" then "on"
               else if v == "yes" then "yes" else "y";
      assert w in TrueWords && EqualFold(value, w);
    }
  }

  /** The transport a modalias names by its bus prefix, if it names one. */
  function ModaliasTransport(modalias: string): Option<Transport>
  {
    var lower := ToLower(modalias);
    if HasPrefix(lower, "usb:") then Some(Usb)
    else if HasPrefix(lower, "pci:") then Some(Pci)
    else if HasPrefix(lower, "acpi:") || HasPrefix(lower, "platform:") then Some(Platform)
    else None
  }

  /** The transport a resolved device path points at, if it points at one. */
  function TargetTransport(target: string): Option<Transport>
  {
    var t := ToLower(target);
    if Contains(t, "/usb") then Some(Usb)
    else if Contains(t, "/pci") then Some(Pci)
    else if Contains(t, "/platform") || Contains(t, "/acpi") then Some(Platform)
    else None
  }

  /** detectTransport: the modalias prefix first, then the device symlink's target. */
  function DetectTransport(h: Host, adapterPath: string): Transport
  {
    var modalias := ReadTrimmedFile(h, JoinPath(JoinPath(adapterPath, "device"), "modalias"));
    var fromModalias := if modalias != "" then ModaliasTransport(modalias) else None;
    if fromModalias.Some? then fromModalias.value
    else
      var target := EvalSymlinks(h, JoinPath(adapterPath, "device"));
      if target.Some? && TargetTransport(target.value).Some? then TargetTransport(target.value).value
      else Unknown
  }

  /** A recognised modalias prefix decides the transport, whatever the symlink says. */
  lemma ModaliasWins(h: Host, adapterPath: string, t: Transport)
    requires ModaliasTransport(ReadTrimmedFile(h, JoinPath(JoinPath(adapterPath, "device"), "modalias"))) == Some(t)
    ensures DetectTransport(h, adapterPath) == t
  {
  }

  /** Without a recognised modalias, the symlink target decides, and `Unknown` is the
      answer exactly when neither source names a bus. */
  lemma TransportFallback(h: Host, adapterPath: string)
    requires ModaliasTransport(ReadTrimmedFile(h, JoinPath(JoinPath(adapterPath, "device"), "modalias"))).None?
    ensures var target := EvalSymlinks(h, JoinPath(adapterPath, "device"));
      DetectTransport(h, adapterPath) ==
        if target.Some? && TargetTransport(target.value).Some? then TargetTransport(target.value).value else Unknown
  {
  }

  /** The symlink patterns are tried in the order /usb, /pci, then /platform or /acpi,
      so a path mentioning both a PCI host and a USB bus is USB. */
  lemma TargetPatternOrder(target: string)
    ensures Contains(ToLower(target), "/usb") ==> TargetTransport(target) == Some(Usb)
    ensures !Contains(ToLower(target), "/usb") && Contains(ToLower(target), "/pci") ==> TargetTransport(target) == Some(Pci)
    ensures TargetTransport(target) == Some(Platform) ==> !Contains(ToLower(target), "/usb") && !Contains(ToLower(target), "/pci")
  {
  }

  /** Upper case in a modalias does not matter. */
  lemma ModaliasIgnoresCase(modalias: string)
    ensures ModaliasTransport(ToLower(modalias)) == ModaliasTransport(modalias)
  {
    ToLowerIdempotent(modalias);
  }

  /** The entries that become adapters: directories or symlinks named hci*. */
  predicate IsAdapterEntry(e: DirEntry)
  {
    (e.isDir || e.isSymlink) && HasPrefix(e.name, "hci")
  }

  /** The adapter entries, in directory order. */
  function AdapterEntries(entries: seq<DirEntry>): (r: seq<DirEntry>)
    ensures |r| <= |entries|
  {
    if entries == [] then []
    else if IsAdapterEntry(entries[0]) then [entries[0]] + AdapterEntries(entries[1..])
    else AdapterEntries(entries[1..])
  }

  /** The filter keeps exactly the adapter entries. */
  lemma {:induction false} AdapterEntriesMembers(entries: seq<DirEntry>, e: DirEntry)
    ensures e in AdapterEntries(entries) <==> e in entries && IsAdapterEntry(e)
  {
    if entries != [] {
      AdapterEntriesMembers(entries[1..], e);
      assert entries == [entries[0]] + entries[1..];
    }
  }

  /** Filtering keeps directory order: the adapters of a concatenation are those of its
      first part followed by those of its second. */
  lemma {:induction false} AdapterEntriesOfConcat(a: seq<DirEntry>, b: seq<DirEntry>)
    ensures AdapterEntries(a + b) == AdapterEntries(a) + AdapterEntries(b)
  {
    if a != [] {
      assert (a + b)[0] == a[0];
      assert (a + b)[1..] == a[1..] + b;
      AdapterEntriesOfConcat(a[1..], b);
    } else {
      assert a + b == b;
    }
  }

  /** The adapter described by the files under <root>/<name>. */
  function AdapterFor(h: Host, root: string, name: string): (a: Adapter)
    ensures a.id == name
  {
    var dir := JoinPath(root, name);
    Adapter(
      id := name,
      address := ReadTrimmedFile(h, JoinPath(dir, "address")),
      alias := ReadTrimmedFile(h, JoinPath(dir, "name")),
      powered := ParseBool(ReadTrimmedFile(h, JoinPath(dir, "powered"))),
      transport := DetectTransport(h, dir))
  }

  /** Absent files give the empty address and alias, an unpowered radio and an unknown
      transport, never an error. */
  lemma MissingFilesGiveDefaults(h: Host, root: string, name: string)
    requires var dir := JoinPath(root, name);
      && JoinPath(dir, "address") !in h.files && JoinPath(dir, "name") !in h.files
      && JoinPath(dir, "powered") !in h.files
      && JoinPath(JoinPath(dir, "device"), "modalias") !in h.files
      && JoinPath(dir, "device") !in h.links
    ensures AdapterFor(h, root, name) == Adapter(name, "", "", false, Unknown)
  {
  }

  /** The names of the adapter entries, in directory order. */
  function AdapterNames(entries: seq<DirEntry>): (r: seq<string>)
    ensures |r| == |AdapterEntries(entries)|
    ensures forall i :: 0 <= i < |r| ==> r[i] == AdapterEntries(entries)[i].name
  {
    if entries == [] then []
    else (if IsAdapterEntry(entries[0]) then [entries[0].name] else []) + AdapterNames(entries[1..])
  }

  lemma {:induction false} AdapterNamesSnoc(entries: seq<DirEntry>, e: DirEntry)
    ensures AdapterNames(entries + [e]) == AdapterNames(entries) + (if IsAdapterEntry(e) then [e.name] else [])
  {
    if entries == [] {
      assert entries + [e] == [e];
      assert [e][1..] == [];
    } else {
      var head: seq<string> := if IsAdapterEntry(entries[0]) then [entries[0].name] else [];
      var last: seq<string> := if IsAdapterEntry(e) then [e.name] else [];
      assert (entries + [e])[0] == entries[0];
      assert (entries + [e])[1..] == entries[1..] + [e];
      assert AdapterNames(entries + [e]) == head + AdapterNames(entries[1..] + [e]);
      AdapterNamesSnoc(entries[1..], e);
      assert AdapterNames(entries) == head + AdapterNames(entries[1..]);
      SeqAssoc(head, AdapterNames(entries[1..]), last);
    }
  }

  lemma SeqAssoc<T>(a: seq<T>, b: seq<T>, c: seq<T>)
    ensures a + (b + c) == a + b + c
  {
  }

  /** The adapters described under root for the given names, in the same order. */
  function Describe(h: Host, root: string, names: seq<string>): (r: seq<Adapter>)
    ensures |r| == |names|
    ensures forall i :: 0 <= i < |r| ==> r[i].id == names[i]
  {
    seq(|names|, i requires 0 <= i < |names| => AdapterFor(h, root, names[i]))
  }

  lemma DescribeSnoc(h: Host, root: string, names: seq<string>, n: string)
    ensures Describe(h, root, names + [n]) == Describe(h, root, names) + [AdapterFor(h, root, n)]
  {
  }

  /** The adapters a listing of root produces: one per adapter entry, in order. */
  function Discovered(h: Host, root: string, entries: seq<DirEntry>): seq<Adapter>
  {
    Describe(h, root, AdapterNames(entries))
  }

  /** One more entry adds its adapter when it is an adapter entry, and nothing otherwise. */
  lemma DiscoveredSnoc(h: Host, root: string, entries: seq<DirEntry>, e: DirEntry)
    ensures Discovered(h, root, entries + [e]) ==
      Discovered(h, root, entries) + (if IsAdapterEntry(e) then [AdapterFor(h, root, e.name)] else [])
  {
    var names := AdapterNames(entries);
    AdapterNamesSnoc(entries, e);
    if IsAdapterEntry(e) {
      DescribeSnoc(h, root, names, e.name);
    } else {
      assert names + [] == names;
    }
  }

  /** The entry list has more entries than the context lets through un-cancelled:
      some per-entry poll sees the context done. */
  predicate CancelledDuring(ctx: Context, entries: nat)
  {
    ctx.doneAfter.Some? && ctx.doneAfter.value < entries
  }

  /** What ListAdapters returns, as a value. */
  function Listing(p: SysfsAdapterProvider, ctx: Option<Context>, h: Host): Result<seq<Adapter>, Error>
  {
    if ctx.None? then Failure(Fault("nil context"))
    else match ReadDir(h, p.root)
      case Failure(e) =>
        if Is(e, ErrPermission) then Failure(AdapterAccessError(p.root, e))
        else Failure(Wrapped("read sysfs adapters", e))
      case Success(entries) =>
        if CancelledDuring(ctx.value, |entries|) then Failure(ctx.value.err)
        else Success(Discovered(h, p.root, entries))
  }

  /** The body of the discovery loop for one hci* entry: reads the optional files of
      <root>/<name> and builds the adapter they describe. */
  method ReadAdapter(h: Host, root: string, name: string) returns (a: Adapter)
    ensures a == AdapterFor(h, root, name)
  {
    var adapterPath := JoinPath(root, name);
    var address := ReadTrimmedFile(h, JoinPath(adapterPath, "address"));
    var alias := ReadTrimmedFile(h, JoinPath(adapterPath, "name"));
    var powered := ParseBool(ReadTrimmedFile(h, JoinPath(adapterPath, "powered")));
    var transport := DetectTransport(h, adapterPath);
    a := Adapter(name, address, alias, powered, transport);
  }

  /** sysfsAdapterProvider.ListAdapters: polls the context before each entry, skips
      what is not an adapter entry, and builds the rest in directory order. */
  method ListAdapters(p: SysfsAdapterProvider, ctx: Option<Context>, h: Host) returns (adapters: seq<Adapter>, err: Option<Error>)
    ensures err.None? ==> Listing(p, ctx, h) == Success(adapters)
    ensures err.Some? ==> Listing(p, ctx, h) == Failure(err.value) && adapters == []
  {
    if ctx.None? {
      return [], Some(Fault("nil context"));
    }
    var listed := ReadDir(h, p.root);
    if listed.Failure? {
      if Is(listed.error, ErrPermission) {
        return [], Some(AdapterAccessError(p.root, listed.error));
      }
      return [], Some(Wrapped("read sysfs adapters", listed.error));
    }
    var entries := listed.value;
    adapters := [];
    var i := 0;
    while i < |entries|
      invariant 0 <= i <= |entries|
      invariant !CancelledDuring(ctx.value, i)
      invariant adapters == Discovered(h, p.root, entries[..i])
    {
      var polled := PollErr(ctx.value, i);
      if polled.Some? {
        return [], Some(polled.value);
      }
      var entry := entries[i];
      assert entries[..i + 1] == entries[..i] + [entry];
      DiscoveredSnoc(h, p.root, entries[..i], entry);
      if !(entry.isDir || entry.isSymlink) {
        i := i + 1;
        continue;
      }
      var name := entry.name;
      if !HasPrefix(name, "hci") {
        i := i + 1;
        continue;
      }
      var adapter := ReadAdapter(h, p.root, name);
      adapters := adapters + [adapter];
      i := i + 1;
    }
    assert entries[..i] == entries;
    return adapters, None;
  }

  /** A nil context is refused before the root is read. */
  lemma ListingNilContext(p: SysfsAdapterProvider, h: Host)
    ensures Listing(p, None, h) == Failure(Fault("nil context"))
  {
  }

  /** A permission failure on the root is an AdapterAccessError for that root that still
      answers errors.Is(err, fs.ErrPermission); any other failure is wrapped generically. */
  lemma ListingRootFailure(p: SysfsAdapterProvider, ctx: Context, h: Host)
    requires ReadDir(h, p.root).Failure?
    ensures var e := ReadDir(h, p.root).error;
      var r := Listing(p, Some(ctx), h);
      && r.Failure?
      && (Is(e, ErrPermission) ==> r.error == AdapterAccessError(p.root, e) && Is(r.error, ErrPermission) && Unwrap(r.error) == Some(e))
      && (!Is(e, ErrPermission) ==> r.error == Wrapped("read sysfs adapters", e) && !r.error.AdapterAccessError?)
  {
  }

  /** Discovery fails exactly for a nil context, an unreadable root, or a context that
      fires before the last entry is reached; the per-adapter files never cause an error. */
  lemma ListingFailsOnlyFor(p: SysfsAdapterProvider, ctx: Option<Context>, h: Host)
    ensures Listing(p, ctx, h).Failure? <==>
      ctx.None? || ReadDir(h, p.root).Failure? || CancelledDuring(ctx.value, |ReadDir(h, p.root).value|)
  {
  }

  /** Once the context has fired, a non-empty listing yields the context's error and no
      adapters; an empty one is never polled. */
  lemma ListingCancellation(p: SysfsAdapterProvider, ctx: Context, h: Host)
    requires ReadDir(h, p.root).Success?
    ensures ctx.doneAfter == Some(0) && ReadDir(h, p.root).value != [] ==> Listing(p, Some(ctx), h) == Failure(ctx.err)
    ensures ReadDir(h, p.root).value == [] ==> Listing(p, Some(ctx), h) == Success([])
  {
  }

  /** A successful listing has one adapter per hci* directory or symlink, in directory
      order, each with ID equal to the entry name. */
  lemma ListingAdapters(p: SysfsAdapterProvider, ctx: Context, h: Host)
    requires Listing(p, Some(ctx), h).Success?
    ensures var entries := ReadDir(h, p.root).value;
      var r := Listing(p, Some(ctx), h).value;
      && |r| == |AdapterEntries(entries)|
      && (forall i :: 0 <= i < |r| ==> r[i].id == AdapterEntries(entries)[i].name)
      && (forall a :: a in r ==> HasPrefix(a.id, "hci"))
  {
    var entries := ReadDir(h, p.root).value;
    var r := Listing(p, Some(ctx), h).value;
    forall a | a in r ensures HasPrefix(a.id, "hci") {
      var i :| 0 <= i < |r| && r[i] == a;
      AdapterEntriesMembers(entries, AdapterEntries(entries)[i]);
    }
  }
}
