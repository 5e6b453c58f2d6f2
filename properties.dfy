/** What the conversion guarantees, stated over the model in Csv2Fritz. */
module Csv2FritzProperties {
  import opened Text
  import opened Csv2Fritz

  // ---------------------------------------------------------------------
  // Numbering of the phone fields
  // ---------------------------------------------------------------------

  /** The emitted entries are exactly the surviving fields, in field order:
      entry k has sequence id k, its type names the position it came from,
      that position holds its text, positions strictly increase, and every
      surviving field is emitted. */
  lemma EntriesFollowFields(phones: seq<Cell>, parse: FloatParser)
    requires |phones| <= 3
    ensures var es := Numbered(phones, parse);
      (forall k :: 0 <= k < |es| ==> es[k].id == k)
      && (forall k :: 0 <= k < |es| ==>
            Position(es[k].ntype) < |phones| && phones[Position(es[k].ntype)] == Some(es[k].number)
            && Survives(phones[Position(es[k].ntype)], parse))
      && (forall j, k :: 0 <= j < k < |es| ==> Position(es[j].ntype) < Position(es[k].ntype))
      && (forall i :: 0 <= i < |phones| && Survives(phones[i], parse) ==>
            exists k :: 0 <= k < |es| && Position(es[k].ntype) == i)
  {
    var es := Numbered(phones, parse);
    var ks := Kept(phones, parse);
    forall k | 0 <= k < |es|
      ensures Position(es[k].ntype) == ks[k]
    {
      assert es[k].ntype == TypeAt(ks[k]);
    }
    forall i | 0 <= i < |phones| && Survives(phones[i], parse)
      ensures exists k :: 0 <= k < |es| && Position(es[k].ntype) == i
    {
      var k :| 0 <= k < |ks| && ks[k] == i;
      assert Position(es[k].ntype) == i;
    }
  }

  /** `prio` is 1 exactly for the entry with id 0, so no entry but the first
      has priority and the first one has it whenever any number survives. */
  lemma PrioOnlyFirst(phones: seq<Cell>, parse: FloatParser)
    requires |phones| <= 3
    ensures var es := Numbered(phones, parse);
      (forall k :: 0 <= k < |es| ==> (Prio(es[k].id) == 1 <==> k == 0))
      && |set k | 0 <= k < |es| && Prio(es[k].id) == 1| == (if |es| == 0 then 0 else 1)
  {
    var es := Numbered(phones, parse);
    var s := set k | 0 <= k < |es| && Prio(es[k].id) == 1;
    if |es| == 0 {
      assert s == {};
    } else {
      assert s == {0};
    }
  }

  /** Kept and FirstRaise on a full phone slice, field by field. */
  lemma ThreeFields(phones: seq<Cell>, parse: FloatParser)
    requires |phones| == 3
    ensures Kept(phones, parse) ==
      (if Survives(phones[0], parse) then [0] else [])
      + (if Survives(phones[1], parse) then [1] else [])
      + (if Survives(phones[2], parse) then [2] else [])
    ensures FirstRaise(phones, parse) ==
      if RaisesAt(phones[0], parse) then Some(0)
      else if RaisesAt(phones[1], parse) then Some(1)
      else if RaisesAt(phones[2], parse) then Some(2)
      else None
  {
    var p1, p2 := phones[..1], phones[..2];
    assert p2[..1] == p1 && p1[..0] == [] && p1[0] == phones[0] && p2[1] == phones[1];
    assert Kept(p1, parse) == if Survives(phones[0], parse) then [0] else [];
    assert Kept(p2, parse) == Kept(p1, parse) + if Survives(phones[1], parse) then [1] else [];
    assert FirstRaise(p1, parse) == if RaisesAt(phones[0], parse) then Some(0) else None;
  }

  /** With three present numeric fields, the block lists home, mobile and work
      with ids 0, 1, 2 and declares three numbers. */
  lemma AllThreePresent(home: string, mobile: string, work: string, parse: FloatParser)
    requires parse(home) == Real && parse(mobile) == Real && parse(work) == Real
    ensures var phones := [Some(home), Some(mobile), Some(work)];
      Numbered(phones, parse) == [PhoneEntry(Home, 0, home), PhoneEntry(Mobile, 1, mobile), PhoneEntry(Work, 2, work)]
      && TelephonyXml(phones, parse) == Ok(TelephonyTemplate(Decimal(3), Join("\n",
           [NumberToXml(home, Home, 0), NumberToXml(mobile, Mobile, 1), NumberToXml(work, Work, 2)])))
  {
    var phones := [Some(home), Some(mobile), Some(work)];
    ThreeFields(phones, parse);
    var es := Numbered(phones, parse);
    assert es == [PhoneEntry(Home, 0, home), PhoneEntry(Mobile, 1, mobile), PhoneEntry(Work, 2, work)];
    assert RenderNumbers(es) ==
      [NumberToXml(home, Home, 0), NumberToXml(mobile, Mobile, 1), NumberToXml(work, Work, 2)];
  }

  /** With one field missing (or NaN), the other two keep their types and
      relative order and are numbered 0 and 1; the block declares two. */
  lemma OneAbsent(phones: seq<Cell>, gap: nat, parse: FloatParser)
    requires |phones| == 3 && gap < 3
    requires forall i :: 0 <= i < 3 ==> !RaisesAt(phones[i], parse)
    requires forall i :: 0 <= i < 3 ==> (Survives(phones[i], parse) <==> i != gap)
    ensures var a := if gap == 0 then 1 else 0;
            var b := if gap == 2 then 1 else 2;
      phones[a].Some? && phones[b].Some?
      && Numbered(phones, parse) == [PhoneEntry(TypeAt(a), 0, phones[a].value), PhoneEntry(TypeAt(b), 1, phones[b].value)]
      && TelephonyXml(phones, parse) == Ok(TelephonyTemplate(Decimal(2), Join("\n",
           [NumberToXml(phones[a].value, TypeAt(a), 0), NumberToXml(phones[b].value, TypeAt(b), 1)])))
  {
    var a := if gap == 0 then 1 else 0;
    var b := if gap == 2 then 1 else 2;
    OneAbsentNumbered(phones, gap, parse);
    var es := Numbered(phones, parse);
    assert RenderNumbers(es) ==
      [NumberToXml(phones[a].value, TypeAt(a), 0), NumberToXml(phones[b].value, TypeAt(b), 1)];
  }

  /** The numbering half of OneAbsent. */
  lemma OneAbsentNumbered(phones: seq<Cell>, gap: nat, parse: FloatParser)
    requires |phones| == 3 && gap < 3
    requires forall i :: 0 <= i < 3 ==> !RaisesAt(phones[i], parse)
    requires forall i :: 0 <= i < 3 ==> (Survives(phones[i], parse) <==> i != gap)
    ensures var a := if gap == 0 then 1 else 0;
            var b := if gap == 2 then 1 else 2;
      phones[a].Some? && phones[b].Some?
      && FirstRaise(phones, parse) == None
      && Numbered(phones, parse) == [PhoneEntry(TypeAt(a), 0, phones[a].value), PhoneEntry(TypeAt(b), 1, phones[b].value)]
  {
    var a := if gap == 0 then 1 else 0;
    var b := if gap == 2 then 1 else 2;
    ThreeFields(phones, parse);
    assert Survives(phones[a], parse) && Survives(phones[b], parse) && !Survives(phones[gap], parse);
    assert Kept(phones, parse) == [a, b];
  }

  /** With no surviving field the block declares zero numbers and lists none. */
  lemma NoneSurvive(phones: seq<Cell>, parse: FloatParser)
    requires |phones| <= 3
    requires forall i :: 0 <= i < |phones| ==> !Survives(phones[i], parse) && !RaisesAt(phones[i], parse)
    ensures Numbered(phones, parse) == []
    ensures TelephonyXml(phones, parse) == Ok(TelephonyTemplate(Decimal(0), ""))
  {
    NothingKept(phones, parse);
  }

  /** No surviving field, no kept position. */
  lemma {:induction false} NothingKept(phones: seq<Cell>, parse: FloatParser)
    requires forall i :: 0 <= i < |phones| ==> !Survives(phones[i], parse)
    ensures Kept(phones, parse) == []
    decreases |phones|
  {
    if |phones| > 0 {
      NothingKept(phones[..|phones| - 1], parse);
    }
  }

  // ---------------------------------------------------------------------
  // The declared count as written (see README, Findings)
  // ---------------------------------------------------------------------

  /** `3 - index_shift` equals the number of emitted entries exactly when the
      phone slice has three fields; on such slices the block as written is
      the intended one. */
  lemma AsWrittenCountIffThreeFields(phones: seq<Cell>, parse: FloatParser)
    requires |phones| <= 3
    ensures 3 - Skipped(phones, parse) == |Numbered(phones, parse)| <==> |phones| == 3
    ensures |phones| == 3 ==> TelephonyXmlAsWritten(phones, parse) == TelephonyXml(phones, parse)
  {
    SkippedPlusKept(phones, parse);
  }

  /** A table with three columns: the phone slice `entry[3:6]` holds one
      field, yet the block as written declares three numbers while listing one. */
  lemma NarrowTableOverstatesCount(first: string, last: string, phone: string, parse: FloatParser)
    requires parse(phone) == Real
    ensures var phones := PhoneSlice([Some(first), Some(last), Some(phone)]);
      phones == [Some(phone)]
      && |Numbered(phones, parse)| == 1
      && TelephonyXmlAsWritten(phones, parse) == Ok(TelephonyTemplate("3", NumberToXml(phone, Home, 0)))
      && TelephonyXml(phones, parse) == Ok(TelephonyTemplate("1", NumberToXml(phone, Home, 0)))
  {
    var phones := PhoneSlice([Some(first), Some(last), Some(phone)]);
    assert phones == [Some(phone)];
    SingleNumericField(phone, parse);
  }

  /** A phone slice holding one numeric field: as written it declares three
      numbers, corrected it declares one, and both list the one element. */
  lemma SingleNumericField(phone: string, parse: FloatParser)
    requires parse(phone) == Real
    ensures |Numbered([Some(phone)], parse)| == 1
    ensures TelephonyXmlAsWritten([Some(phone)], parse) == Ok(TelephonyTemplate("3", NumberToXml(phone, Home, 0)))
    ensures TelephonyXml([Some(phone)], parse) == Ok(TelephonyTemplate("1", NumberToXml(phone, Home, 0)))
  {
    var phones := [Some(phone)];
    assert phones[..0] == [];
    assert Kept(phones, parse) == [0];
    assert Skipped(phones, parse) == 0;
    assert FirstRaise(phones, parse) == None;
    assert Numbered(phones, parse) == [PhoneEntry(Home, 0, phone)];
    assert RenderNumbers(Numbered(phones, parse)) == [NumberToXml(phone, Home, 0)];
    assert Decimal(3) == "3" && Decimal(1) == "1";
  }

  /** Padding a one-field phone slice with missing cells, as pandas does for
      a short row in a wider table, leaves the corrected block unchanged. */
  lemma PaddingKeepsBlock(c: Cell, parse: FloatParser)
    ensures TelephonyXml([c, None, None], parse) == TelephonyXml([c], parse)
  {
    var p := [c, None, None];
    ThreeFields(p, parse);
    assert [c][..0] == [];
    assert Kept(p, parse) == Kept([c], parse);
    assert FirstRaise(p, parse) == FirstRaise([c], parse);
    assert Numbered(p, parse) == Numbered([c], parse);
  }

  /** The same padding changes the count the block as written declares, so
      the finding needs a table that is narrow, not a row that is short. */
  lemma PaddingChangesWrittenCount(phone: string, parse: FloatParser)
    requires parse(phone) == Real
    ensures TelephonyXmlAsWritten([Some(phone)], parse) == Ok(TelephonyTemplate("3", NumberToXml(phone, Home, 0)))
    ensures TelephonyXmlAsWritten([Some(phone), None, None], parse) == Ok(TelephonyTemplate("1", NumberToXml(phone, Home, 0)))
  {
    SingleNumericField(phone, parse);
    PaddingKeepsBlock(Some(phone), parse);
    var p := [Some(phone), None, None];
    ThreeFields(p, parse);
    assert Skipped(p, parse) == 2;
  }

  // ---------------------------------------------------------------------
  // Contacts
  // ---------------------------------------------------------------------

  /** The display name joins the present parts among the first two cells with
      one space: both present, one present (no stray space), or none (empty). */
  lemma DisplayNameCases(cells: seq<Cell>)
    ensures |cells| >= 2 && cells[0].Some? && cells[1].Some? ==>
      DisplayName(cells) == cells[0].value + " " + cells[1].value
    ensures |cells| >= 1 && cells[0].Some? && (|cells| == 1 || cells[1].None?) ==>
      DisplayName(cells) == cells[0].value
    ensures |cells| >= 2 && cells[0].None? && cells[1].Some? ==>
      DisplayName(cells) == cells[1].value
    ensures (|cells| == 0 || cells[0].None?) && (|cells| <= 1 || cells[1].None?) ==>
      DisplayName(cells) == ""
  {
    var parts := Slice(cells, 0, 2);
    if |parts| == 2 {
      assert parts[1..][1..] == [];
      var p1 := if parts[1].Some? then [parts[1].value] else [];
      assert Present(parts[1..]) == p1;
      if parts[0].Some? && parts[1].Some? {
        assert Present(parts) == [parts[0].value, parts[1].value];
        assert Present(parts)[1..] == [parts[1].value];
        assert Join(" ", [parts[1].value]) == parts[1].value;
      }
    } else if |parts| == 1 {
      assert parts[1..] == [];
    }
  }

  /** A contact fails exactly when its phone slice has a field on which
      `float` raises, with that field's text as the error. */
  lemma ContactFailsIffRaise(entry: Entry, parse: FloatParser, modTime: nat)
    ensures var phones := PhoneSlice(entry.cells);
      var r := ContactXml(entry, parse, modTime);
      (r.Err? <==> FirstRaise(phones, parse).Some?)
      && (r.Err? ==> r.error == ValueError(phones[FirstRaise(phones, parse).value].value))
  {
  }

  /** A contact fragment starts with the name inside `<realName>` and ends with
      the row index, in decimal, inside `<uniqueid>`. */
  lemma ContactCarriesNameAndId(entry: Entry, parse: FloatParser, modTime: nat)
    ensures var r := ContactXml(entry, parse, modTime);
      r.Ok? ==>
        RealNamePart(DisplayName(entry.cells)) <= r.value
        && var tail := UniqueIdPart(Decimal(entry.index));
           |tail| <= |r.value| && r.value[|r.value| - |tail|..] == tail
  {
    var r := ContactXml(entry, parse, modTime);
    if r.Ok? {
      var head := RealNamePart(DisplayName(entry.cells));
      var tail := UniqueIdPart(Decimal(entry.index));
      var middle := ContactMiddle(TelephonyXml(PhoneSlice(entry.cells), parse).value, Decimal(modTime));
      assert r.value == head + middle + tail;
      PrefixAndSuffix(head, middle, tail);
    }
  }

  /** The example row (7, "Jane", "Doe", "5551234", missing, "5559999") gives
      the name "Jane Doe", uniqueid 7 and two numbers: home first with
      priority, then work. */
  lemma JaneDoeExample(modTime: nat, parse: FloatParser)
    requires parse("5551234") == Real && parse("5559999") == Real
    ensures ContactXml(Entry(7, [Some("Jane"), Some("Doe"), Some("5551234"), None, Some("5559999")]), parse, modTime)
      == Ok(ContactTemplate("Jane Doe",
              TelephonyTemplate("2", Join("\n",
                [NumberTemplate("home", "1", "0", "5551234"), NumberTemplate("work", "0", "1", "5559999")])),
              Decimal(modTime), "7"))
  {
    var cells := [Some("Jane"), Some("Doe"), Some("5551234"), None, Some("5559999")];
    JaneDoeName(cells);
    JaneDoeNumbers(PhoneSlice(cells), parse);
    assert Decimal(7) == "7";
  }

  lemma JaneDoeName(cells: seq<Cell>)
    requires cells == [Some("Jane"), Some("Doe"), Some("5551234"), None, Some("5559999")]
    ensures DisplayName(cells) == "Jane Doe"
    ensures PhoneSlice(cells) == [Some("5551234"), None, Some("5559999")]
  {
    DisplayNameCases(cells);
  }

  lemma JaneDoeNumbers(phones: seq<Cell>, parse: FloatParser)
    requires parse("5551234") == Real && parse("5559999") == Real
    requires phones == [Some("5551234"), None, Some("5559999")]
    ensures TelephonyXml(phones, parse) == Ok(TelephonyTemplate("2", Join("\n",
      [NumberTemplate("home", "1", "0", "5551234"), NumberTemplate("work", "0", "1", "5559999")])))
  {
    OneAbsent(phones, 1, parse);
    assert Decimal(0) == "0" && Decimal(1) == "1" && Decimal(2) == "2";
    assert NumberToXml("5551234", Home, 0) == NumberTemplate("home", "1", "0", "5551234");
    assert NumberToXml("5559999", Work, 1) == NumberTemplate("work", "0", "1", "5559999");
  }

  // ---------------------------------------------------------------------
  // Document
  // ---------------------------------------------------------------------

  /** The document is one envelope around the newline-joined fragments, one
      per row in row order, fragment k being row k's contact; since row k's
      contact carries uniqueid k, the fragments of distinct rows differ. */
  lemma DocumentHasOneContactPerRow(frame: seq<seq<Cell>>, parse: FloatParser, clock: nat -> nat)
    ensures var d := DocumentXml(frame, parse, clock);
      d.Ok? ==> exists xs: seq<string> ::
        |xs| == |frame| && d.value == XmlTemplate(Join("\n", xs))
        && (forall k :: 0 <= k < |frame| ==> ContactXml(Entry(k, frame[k]), parse, clock(k)) == Ok(xs[k]))
        && (forall j, k :: 0 <= j < k < |frame| ==> xs[j] != xs[k])
  {
    var rs := ContactResults(frame, parse, clock);
    var c := Collect(rs);
    if c.Ok? {
      var xs := c.value;
      assert |xs| == |frame|;
      assert DocumentXml(frame, parse, clock).value == XmlTemplate(Join("\n", xs));
      forall k | 0 <= k < |frame|
        ensures ContactXml(Entry(k, frame[k]), parse, clock(k)) == Ok(xs[k])
      {
        assert rs[k] == Ok(xs[k]);
      }
      FragmentsDiffer(frame, parse, clock, xs);
    }
  }

  /** Fragments rendered from distinct rows differ. */
  lemma FragmentsDiffer(frame: seq<seq<Cell>>, parse: FloatParser, clock: nat -> nat, xs: seq<string>)
    requires |xs| == |frame|
    requires forall k :: 0 <= k < |frame| ==> ContactXml(Entry(k, frame[k]), parse, clock(k)) == Ok(xs[k])
    ensures forall j, k :: 0 <= j < k < |frame| ==> xs[j] != xs[k]
  {
    forall j, k | 0 <= j < k < |frame|
      ensures xs[j] != xs[k]
    {
      ContactsOfDistinctRowsDiffer(Entry(j, frame[j]), Entry(k, frame[k]), parse, clock(j), clock(k));
    }
  }

  /** Two contacts from rows with different indices are different texts,
      because each ends with its own index inside `<uniqueid>`. */
  lemma ContactsOfDistinctRowsDiffer(e1: Entry, e2: Entry, parse: FloatParser, t1: nat, t2: nat)
    requires e1.index != e2.index
    ensures var r1, r2 := ContactXml(e1, parse, t1), ContactXml(e2, parse, t2);
      r1.Ok? && r2.Ok? ==> r1.value != r2.value
  {
    var r1, r2 := ContactXml(e1, parse, t1), ContactXml(e2, parse, t2);
    if r1.Ok? && r2.Ok? && r1.value == r2.value {
      ContactCarriesNameAndId(e1, parse, t1);
      ContactCarriesNameAndId(e2, parse, t2);
      UniqueIdSuffixDetermines(r1.value, Decimal(e1.index), Decimal(e2.index));
      DecimalInjective(e1.index, e2.index);
    }
  }

  /** A text ends with at most one `<uniqueid>` part holding digits. */
  lemma UniqueIdSuffixDetermines(s: string, a: string, b: string)
    requires IsDigits(a) && IsDigits(b)
    requires |UniqueIdPart(a)| <= |s| && s[|s| - |UniqueIdPart(a)|..] == UniqueIdPart(a)
    requires |UniqueIdPart(b)| <= |s| && s[|s| - |UniqueIdPart(b)|..] == UniqueIdPart(b)
    ensures a == b
  {
    if |a| < |b| {
      LongerIdShowsBracket(s, a, b);
    } else if |b| < |a| {
      LongerIdShowsBracket(s, b, a);
    } else {
      var ta, tb := UniqueIdPart(a), UniqueIdPart(b);
      assert ta == tb;
      assert a == ta[10..10 + |a|] && b == tb[10..10 + |b|];
    }
  }

  /** Were a shorter id's part also a suffix, the longer id would contain the
      `>` that closes `<uniqueid>`, which is not a digit. */
  lemma LongerIdShowsBracket(s: string, a: string, b: string)
    requires |a| < |b|
    requires |UniqueIdPart(a)| <= |s| && s[|s| - |UniqueIdPart(a)|..] == UniqueIdPart(a)
    requires |UniqueIdPart(b)| <= |s| && s[|s| - |UniqueIdPart(b)|..] == UniqueIdPart(b)
    ensures !IsDigits(b)
  {
    var ta, tb := UniqueIdPart(a), UniqueIdPart(b);
    assert |ta| == |a| + 33 && |tb| == |b| + 33;
    var p := |s| - |a| - 24;
    assert ta[9] == '>';
    assert s[p] == ta[9];
    var i := |b| - |a| - 1;
    assert tb[10 + i] == b[i];
    assert s[p] == tb[10 + i];
  }

  /** Row k's result fails exactly when its phone slice has a raising field. */
  lemma RowResultsFail(frame: seq<seq<Cell>>, parse: FloatParser, clock: nat -> nat)
    ensures var rs := ContactResults(frame, parse, clock);
      forall k :: 0 <= k < |frame| ==>
        (rs[k].Err? <==> FirstRaise(PhoneSlice(frame[k]), parse).Some?)
        && (rs[k].Err? ==>
              rs[k].error == ValueError(PhoneSlice(frame[k])[FirstRaise(PhoneSlice(frame[k]), parse).value].value))
  {
    var rs := ContactResults(frame, parse, clock);
    forall k | 0 <= k < |frame|
      ensures rs[k].Err? <==> FirstRaise(PhoneSlice(frame[k]), parse).Some?
      ensures rs[k].Err? ==>
                rs[k].error == ValueError(PhoneSlice(frame[k])[FirstRaise(PhoneSlice(frame[k]), parse).value].value)
    {
      ContactFailsIffRaise(Entry(k, frame[k]), parse, clock(k));
    }
  }

  /** The conversion fails exactly when some row has a phone field on which
      `float` raises. */
  lemma DocumentFailsIffSomeFieldRaises(frame: seq<seq<Cell>>, parse: FloatParser, clock: nat -> nat)
    ensures DocumentXml(frame, parse, clock).Err? <==>
      exists k :: 0 <= k < |frame| && FirstRaise(PhoneSlice(frame[k]), parse).Some?
  {
    RowResultsFail(frame, parse, clock);
    var rs := ContactResults(frame, parse, clock);
    if Collect(rs).Err? {
      var k :| 0 <= k < |rs| && rs[k].Err?;
      assert FirstRaise(PhoneSlice(frame[k]), parse).Some?;
    } else {
      assert forall k :: 0 <= k < |frame| ==> rs[k].Ok?;
    }
  }

  /** A failing conversion reports the first raising field of the first row
      that has one. */
  lemma DocumentReportsFirstRaise(frame: seq<seq<Cell>>, parse: FloatParser, clock: nat -> nat)
    ensures var d := DocumentXml(frame, parse, clock);
      d.Err? ==>
        exists k :: 0 <= k < |frame| && FirstRaise(PhoneSlice(frame[k]), parse).Some?
          && (forall j :: 0 <= j < k ==> FirstRaise(PhoneSlice(frame[j]), parse).None?)
          && d.error == ValueError(PhoneSlice(frame[k])[FirstRaise(PhoneSlice(frame[k]), parse).value].value)
  {
    var rs := ContactResults(frame, parse, clock);
    var c := Collect(rs);
    if c.Err? {
      var k :| 0 <= k < |rs| && rs[k] == Err(c.error) && forall j :: 0 <= j < k ==> rs[j].Ok?;
      ContactFailsIffRaise(Entry(k, frame[k]), parse, clock(k));
      forall j | 0 <= j < k
        ensures FirstRaise(PhoneSlice(frame[j]), parse).None?
      {
        assert rs[j] == ContactXml(Entry(j, frame[j]), parse, clock(j));
        ContactFailsIffRaise(Entry(j, frame[j]), parse, clock(j));
      }
    }
  }
}
