/** The adapter value type and the rule that picks one adapter out of a discovery
    snapshot (internal/daemon/adapter.go). */
module Adapters {
  import opened Wrappers
  import opened Text
  import opened Errors

  /** The bus an adapter hangs off; `Unknown` is a valid answer, not an error. */
  datatype Transport = Unknown | Usb | Pci | Platform

  datatype Adapter = Adapter(id: string, address: string, alias: string, powered: bool, transport: Transport)

  /** Adapter{}: every field empty. */
  const ZeroAdapter := Adapter("", "", "", false, Unknown)

  /** Adapter.Matches: the trimmed identifier names this adapter by ID, address or
      alias, ignoring case. */
  function Matches(a: Adapter, identifier: string): (r: bool)
    ensures TrimSpace(identifier) == "" ==> !r
  {
    var id := TrimSpace(identifier);
    if id == "" then false
    else if EqualFold(a.id, id) then true
    else if EqualFold(a.address, id) then true
    else if EqualFold(a.alias, id) then true
    else false
  }

  /** Matches holds exactly when the folded, trimmed identifier is non-empty and
      is the folded form of one of the three identifying fields. */
  lemma MatchesIffFieldEqual(a: Adapter, identifier: string)
    ensures Matches(a, identifier) <==>
      var id := ToLower(TrimSpace(identifier));
      id != "" && id in {ToLower(a.id), ToLower(a.address), ToLower(a.alias)}
  {
  }

  /** Matching ignores the identifier's letter case. */
  lemma MatchesIgnoresCase(a: Adapter, identifier: string)
    ensures Matches(a, ToLower(identifier)) == Matches(a, identifier)
  {
    var t := TrimSpace(identifier);
    ToLowerTrimSpace(identifier);
    ToLowerIdempotent(t);
    SameFoldSameMatch(a, ToLower(identifier), identifier);
  }

  /** Matches looks at the identifier only through its trimmed, folded form. */
  lemma SameFoldSameMatch(a: Adapter, x: string, y: string)
    requires ToLower(TrimSpace(x)) == ToLower(TrimSpace(y))
    ensures Matches(a, x) == Matches(a, y)
  {
    assert |TrimSpace(x)| == |ToLower(TrimSpace(x))|;
    assert |TrimSpace(y)| == |ToLower(TrimSpace(y))|;
  }

  /** Matching ignores whitespace around the identifier. */
  lemma MatchesIgnoresPadding(a: Adapter, w1: string, identifier: string, w2: string)
    requires AllSpace(w1) && AllSpace(w2)
    ensures Matches(a, w1 + identifier + w2) == Matches(a, identifier)
  {
    TrimSpaceOfPadded(w1, identifier, w2);
  }

  /** The position of the first adapter matching id, if any. */
  function FirstMatch(id: string, adapters: seq<Adapter>): (r: Option<nat>)
    ensures r.Some? ==> r.value < |adapters|
  {
    if adapters == [] then None
    else if Matches(adapters[0], id) then Some(0)
    else match FirstMatch(id, adapters[1..])
      case None => None
      case Some(k) => Some(k + 1)
  }

  /** A position FirstMatch returns holds a matching adapter, and none before it matches. */
  lemma {:induction false} FirstMatchFound(id: string, adapters: seq<Adapter>)
    requires FirstMatch(id, adapters).Some?
    ensures var k := FirstMatch(id, adapters).value;
      Matches(adapters[k], id) && forall j :: 0 <= j < k ==> !Matches(adapters[j], id)
  {
    if !Matches(adapters[0], id) {
      var tail := adapters[1..];
      FirstMatchFound(id, tail);
      var k := FirstMatch(id, tail).value;
      assert FirstMatch(id, adapters) == Some(k + 1);
      assert adapters[k + 1] == tail[k];
      forall j | 0 <= j < k + 1
        ensures !Matches(adapters[j], id)
      {
        if j > 0 {
          assert adapters[j] == tail[j - 1];
        }
      }
    }
  }

  /** FirstMatch returns None only when no adapter matches. */
  lemma {:induction false} FirstMatchNone(id: string, adapters: seq<Adapter>)
    requires FirstMatch(id, adapters).None?
    ensures forall j :: 0 <= j < |adapters| ==> !Matches(adapters[j], id)
  {
    if adapters != [] {
      var tail := adapters[1..];
      FirstMatchNone(id, tail);
      forall j | 1 <= j < |adapters|
        ensures !Matches(adapters[j], id)
      {
        assert adapters[j] == tail[j - 1];
      }
    }
  }

  /** The first matching position is the one FirstMatch returns. */
  lemma {:induction false} FirstMatchAt(id: string, adapters: seq<Adapter>, i: nat)
    requires i < |adapters| && Matches(adapters[i], id)
    requires forall j :: 0 <= j < i ==> !Matches(adapters[j], id)
    ensures FirstMatch(id, adapters) == Some(i)
  {
    if i > 0 {
      assert !Matches(adapters[0], id);
      var tail := adapters[1..];
      forall j | 0 <= j < i - 1
        ensures !Matches(tail[j], id)
      {
        assert tail[j] == adapters[j + 1];
      }
      assert tail[i - 1] == adapters[i];
      FirstMatchAt(id, tail, i - 1);
    }
  }

  /** When no adapter matches, FirstMatch returns None. */
  lemma {:induction false} FirstMatchAbsent(id: string, adapters: seq<Adapter>)
    requires forall j :: 0 <= j < |adapters| ==> !Matches(adapters[j], id)
    ensures FirstMatch(id, adapters) == None
  {
    if adapters != [] {
      var tail := adapters[1..];
      assert !Matches(adapters[0], id);
      forall j | 0 <= j < |tail|
        ensures !Matches(tail[j], id)
      {
        assert tail[j] == adapters[j + 1];
      }
      FirstMatchAbsent(id, tail);
    }
  }

  /** The position of the first USB adapter, if any. */
  function FirstUsb(adapters: seq<Adapter>): (r: Option<nat>)
    ensures r.Some? ==> r.value < |adapters| && adapters[r.value].transport == Usb
  {
    if adapters == [] then None
    else if adapters[0].transport == Usb then Some(0)
    else match FirstUsb(adapters[1..])
      case None => None
      case Some(k) => Some(k + 1)
  }

  const NoAdaptersSupplied := Fault("select adapter: no adapters supplied")

  /** SelectAdapter: the first adapter matching the (trimmed, non-blank) preference;
      failing that the first USB adapter; failing that the first adapter. */
  function SelectAdapter(preferred: string, adapters: seq<Adapter>): (r: Result<Adapter, Error>)
    ensures adapters == [] <==> r == Failure(NoAdaptersSupplied)
    ensures adapters != [] ==> r.Success? && r.value in adapters
  {
    if |adapters| == 0 then Failure(NoAdaptersSupplied)
    else
      var p := TrimSpace(preferred);
      var m := if p != "" then FirstMatch(p, adapters) else None;
      if m.Some? then Success(adapters[m.value])
      else match FirstUsb(adapters)
        case Some(k) => Success(adapters[k])
        case None => Success(adapters[0])
  }

  /** A preference that matches some adapter selects the first matching one, whatever
      the transports are. */
  lemma SelectPrefersMatch(preferred: string, adapters: seq<Adapter>, i: nat)
    requires i < |adapters| && Matches(adapters[i], preferred)
    requires forall j :: 0 <= j < i ==> !Matches(adapters[j], preferred)
    ensures SelectAdapter(preferred, adapters) == Success(adapters[i])
  {
    var p := TrimSpace(preferred);
    forall j | 0 <= j <= i
      ensures Matches(adapters[j], p) == Matches(adapters[j], preferred)
    {
      MatchesTrimmed(adapters[j], preferred);
    }
    FirstMatchAt(p, adapters, i);
  }

  /** With no usable preference, the first USB adapter is chosen. */
  lemma SelectFallsBackToUsb(preferred: string, adapters: seq<Adapter>, i: nat)
    requires forall j :: 0 <= j < |adapters| ==> !Matches(adapters[j], preferred)
    requires i < |adapters| && adapters[i].transport == Usb
    requires forall j :: 0 <= j < i ==> adapters[j].transport != Usb
    ensures SelectAdapter(preferred, adapters) == Success(adapters[i])
  {
    SelectWithoutMatch(preferred, adapters);
    FirstUsbAt(adapters, i);
  }

  /** With no usable preference and no USB adapter, the first adapter is chosen. */
  lemma SelectFallsBackToFirst(preferred: string, adapters: seq<Adapter>)
    requires adapters != []
    requires forall j :: 0 <= j < |adapters| ==> !Matches(adapters[j], preferred)
    requires forall j :: 0 <= j < |adapters| ==> adapters[j].transport != Usb
    ensures SelectAdapter(preferred, adapters) == Success(adapters[0])
  {
    SelectWithoutMatch(preferred, adapters);
    FirstUsbAbsent(adapters);
  }

  /** When no adapter matches the preference, the choice falls to the transport rule. */
  lemma SelectWithoutMatch(preferred: string, adapters: seq<Adapter>)
    requires adapters != []
    requires forall j :: 0 <= j < |adapters| ==> !Matches(adapters[j], preferred)
    ensures SelectAdapter(preferred, adapters) ==
      match FirstUsb(adapters)
      case Some(k) => Success(adapters[k])
      case None => Success(adapters[0])
  {
    var p := TrimSpace(preferred);
    if p != "" {
      forall j | 0 <= j < |adapters|
        ensures !Matches(adapters[j], p)
      {
        MatchesTrimmed(adapters[j], preferred);
      }
      FirstMatchAbsent(p, adapters);
    }
  }

  /** The identifier is trimmed before matching, so trimming it first changes nothing. */
  lemma MatchesTrimmed(a: Adapter, identifier: string)
    ensures Matches(a, TrimSpace(identifier)) == Matches(a, identifier)
  {
    TrimSpaceIdempotent(identifier);
  }

  /** The first USB position is the one FirstUsb returns. */
  lemma {:induction false} FirstUsbAt(adapters: seq<Adapter>, i: nat)
    requires i < |adapters| && adapters[i].transport == Usb
    requires forall j :: 0 <= j < i ==> adapters[j].transport != Usb
    ensures FirstUsb(adapters) == Some(i)
  {
    if i > 0 {
      assert adapters[0].transport != Usb;
      var tail := adapters[1..];
      forall j | 0 <= j < i - 1
        ensures tail[j].transport != Usb
      {
        assert tail[j] == adapters[j + 1];
      }
      assert tail[i - 1] == adapters[i];
      FirstUsbAt(tail, i - 1);
    }
  }

  /** Without a USB adapter, FirstUsb returns None. */
  lemma {:induction false} FirstUsbAbsent(adapters: seq<Adapter>)
    requires forall j :: 0 <= j < |adapters| ==> adapters[j].transport != Usb
    ensures FirstUsb(adapters) == None
  {
    if adapters != [] {
      var tail := adapters[1..];
      assert adapters[0].transport != Usb;
      forall j | 0 <= j < |tail|
        ensures tail[j].transport != Usb
      {
        assert tail[j] == adapters[j + 1];
      }
      FirstUsbAbsent(tail);
    }
  }

  /** Whitespace around the preference never changes the choice. */
  lemma SelectIgnoresPadding(w1: string, preferred: string, w2: string, adapters: seq<Adapter>)
    requires AllSpace(w1) && AllSpace(w2)
    ensures SelectAdapter(w1 + preferred + w2, adapters) == SelectAdapter(preferred, adapters)
  {
    TrimSpaceOfPadded(w1, preferred, w2);
  }

  /** The letter case of the preference never changes the choice. */
  lemma SelectIgnoresCase(preferred: string, adapters: seq<Adapter>)
    ensures SelectAdapter(ToLower(preferred), adapters) == SelectAdapter(preferred, adapters)
  {
    LowerTrimmedBlank(preferred);
    forall a: Adapter ensures Matches(a, TrimSpace(ToLower(preferred))) == Matches(a, TrimSpace(preferred)) {
      LowerTrimmedMatches(a, preferred);
    }
    SelectDependsOnMatches(ToLower(preferred), preferred, adapters);
  }

  /** Folding the preference does not change whether its trimmed form is blank. */
  lemma LowerTrimmedBlank(preferred: string)
    ensures TrimSpace(ToLower(preferred)) == "" <==> TrimSpace(preferred) == ""
  {
    ToLowerTrimSpace(preferred);
    assert |TrimSpace(preferred)| == |ToLower(TrimSpace(preferred))|;
  }

  /** The trimmed folded preference matches the adapters the trimmed one does. */
  lemma LowerTrimmedMatches(a: Adapter, preferred: string)
    ensures Matches(a, TrimSpace(ToLower(preferred))) == Matches(a, TrimSpace(preferred))
  {
    var p, q := TrimSpace(preferred), TrimSpace(ToLower(preferred));
    ToLowerTrimSpace(preferred);
    ToLowerIdempotent(p);
    TrimSpaceIdempotent(preferred);
    TrimSpaceIdempotent(ToLower(preferred));
    SameFoldSameMatch(a, q, p);
  }

  /** SelectAdapter sees the preference only through which adapters its trimmed form
      matches. */
  lemma SelectDependsOnMatches(p1: string, p2: string, adapters: seq<Adapter>)
    requires TrimSpace(p1) == "" <==> TrimSpace(p2) == ""
    requires forall a :: Matches(a, TrimSpace(p1)) == Matches(a, TrimSpace(p2))
    ensures SelectAdapter(p1, adapters) == SelectAdapter(p2, adapters)
  {
    if adapters != [] {
      var t1, t2 := TrimSpace(p1), TrimSpace(p2);
      if t1 != "" {
        SameMatchesSameFirst(t1, t2, adapters);
      }
    }
  }

  lemma {:induction false} SameMatchesSameFirst(p: string, q: string, adapters: seq<Adapter>)
    requires forall a :: Matches(a, p) == Matches(a, q)
    ensures FirstMatch(p, adapters) == FirstMatch(q, adapters)
  {
    if adapters != [] {
      SameMatchesSameFirst(p, q, adapters[1..]);
    }
  }
}
