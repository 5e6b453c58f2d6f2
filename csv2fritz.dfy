/** Conversion of parsed contact rows into a FritzBox phonebook document.

    A row is what `itertuples(name=None)` yields for one line of the table:
    the frame's integer index followed by the row's cells.  A cell is `None`
    when pandas left it missing (NaN) and `Some(text)` otherwise.  Python's
    `float(...)` on a present cell is not modelled; the caller supplies how
    each text reads as a float (`parse`). */
module Csv2Fritz {
  import opened Text

  type Cell = Option<string>

  /** What `float(text)` does with a present cell: raise ValueError,
      give NaN, or give any other float (finite or infinite). */
  datatype FloatReading = Raises | NaN | Real

  type FloatParser = string -> FloatReading

  /** The exception that aborts the conversion. */
  datatype Error = ValueError(text: string)

  datatype Result<T> = Ok(value: T) | Err(error: Error)

  /** One itertuples tuple: `entry[0]` is `index`, `entry[1 + i]` is `cells[i]`. */
  datatype Entry = Entry(index: nat, cells: seq<Cell>)

  // ---------------------------------------------------------------------
  // Templates (the four constants and their `format` calls)
  // ---------------------------------------------------------------------

  /** XML_TEMPLATE: a fixed header and footer of 108 characters in all
      around the contacts text. */
  function XmlTemplate(contacts: string): (doc: string)
    ensures |doc| == |contacts| + 108
  {
    "<?xml version=\"1.0\" encoding=\"utf-8\"?>\n<phonebooks>\n    <phonebook>\n        "
    + contacts + "\n    </phonebook>\n</phonebooks>\n"
  }

  /** CONTACT_TEMPLATE, cut at the name and at the unique id; the literal
      adds 225 characters around its four holes. */
  function ContactTemplate(name: string, telephony: string, modTime: string, uniqueId: string): (fragment: string)
    ensures |fragment| == |name| + |telephony| + |modTime| + |uniqueId| + 225
  {
    RealNamePart(name) + ContactMiddle(telephony, modTime) + UniqueIdPart(uniqueId)
  }

  function RealNamePart(name: string): string
  {
    "\n<contact>\n    <category>0</category>\n    <person>\n        <realName>" + name + "</realName>"
  }

  function ContactMiddle(telephony: string, modTime: string): string
  {
    "\n    </person>\n    " + telephony
    + "\n    <services />\n    <setup />\n    <features doorphone=\"0\" />\n    <mod_time>"
    + modTime + "</mod_time>\n    "
  }

  function UniqueIdPart(uniqueId: string): string
  {
    "<uniqueid>" + uniqueId + "</uniqueid>\n</contact>\n"
  }

  /** TELEPHONY_TEMPLATE: the count inside `nid="..."`, then the number
      elements; the literal adds 38 characters around them. */
  function TelephonyTemplate(numCount: string, numbers: string): (block: string)
    ensures |block| == |numCount| + |numbers| + 38
  {
    "\n<telephony nid=\"" + numCount + "\">\n    " + numbers + "\n</telephony>\n"
  }

  /** NUMBER_TEMPLATE: the holes in the order type, prio, id, number; the
      literal adds 41 characters around them. */
  function NumberTemplate(ntype: string, prio: string, id: string, number: string): (element: string)
    ensures |element| == |ntype| + |prio| + |id| + |number| + 41
  {
    "\n<number type=\"" + ntype + "\" prio=\"" + prio + "\" id=\"" + id + "\">" + number + "</number>\n"
  }

  // ---------------------------------------------------------------------
  // Phone numbers
  // ---------------------------------------------------------------------

  datatype PhoneType = Home | Mobile | Work

  /** The `number_name` table: field position to phone type. */
  function TypeAt(index: nat): PhoneType
    requires index < 3
  {
    if index == 0 then Home else if index == 1 then Mobile else Work
  }

  /** The position a phone type occupies in the phone fields. */
  function Position(t: PhoneType): (i: nat)
    ensures i < 3 && TypeAt(i) == t
  {
    match t
    case Home => 0
    case Mobile => 1
    case Work => 2
  }

  /** `ntype.lower()` of the table's names, which are already lower case. */
  function TypeName(t: PhoneType): string
  {
    match t
    case Home => "home"
    case Mobile => "mobile"
    case Work => "work"
  }

  /** `prio=1 if id == 0 else 0`. */
  function Prio(id: nat): nat
  {
    if id == 0 then 1 else 0
  }

  /** `number2xml`: the lower-case type name, prio "1" for id 0 and "0"
      otherwise, and the id in decimal. */
  function NumberToXml(number: string, ntype: PhoneType, id: nat): (element: string)
    ensures element == NumberTemplate(TypeName(ntype), if id == 0 then "1" else "0", Decimal(id), number)
  {
    NumberTemplate(TypeName(ntype), Decimal(Prio(id)), Decimal(id), number)
  }

  /** A phone field is emitted when it is present and `float` gives a non-NaN value. */
  predicate Survives(c: Cell, parse: FloatParser)
  {
    c.Some? && parse(c.value) == Real
  }

  /** A phone field makes `float` raise. */
  predicate RaisesAt(c: Cell, parse: FloatParser)
  {
    c.Some? && parse(c.value) == Raises
  }

  /** The positions of the surviving phone fields, in field order. */
  function Kept(phones: seq<Cell>, parse: FloatParser): (ks: seq<nat>)
    ensures forall j :: 0 <= j < |ks| ==> ks[j] < |phones| && Survives(phones[ks[j]], parse)
    ensures forall j, k :: 0 <= j < k < |ks| ==> ks[j] < ks[k]
    ensures forall i :: 0 <= i < |phones| && Survives(phones[i], parse) ==> i in ks
    decreases |phones|
  {
    if |phones| == 0 then []
    else
      var n := |phones| - 1;
      Kept(phones[..n], parse) + (if Survives(phones[n], parse) then [n] else [])
  }

  /** The final value of `index_shift`: how many fields the loop skipped,
      none exactly when every field survives. */
  function Skipped(phones: seq<Cell>, parse: FloatParser): (k: nat)
    ensures k <= |phones|
    ensures k == 0 <==> forall i :: 0 <= i < |phones| ==> Survives(phones[i], parse)
    decreases |phones|
  {
    if |phones| == 0 then 0
    else
      var n := |phones| - 1;
      Skipped(phones[..n], parse) + (if Survives(phones[n], parse) then 0 else 1)
  }

  /** The first phone field on which `float` raises, if any. */
  function FirstRaise(phones: seq<Cell>, parse: FloatParser): (r: Option<nat>)
    ensures r.Some? ==> r.value < |phones| && RaisesAt(phones[r.value], parse)
    ensures r.Some? ==> forall j :: 0 <= j < r.value ==> !RaisesAt(phones[j], parse)
    ensures r.None? ==> forall j :: 0 <= j < |phones| ==> !RaisesAt(phones[j], parse)
    decreases |phones|
  {
    if |phones| == 0 then None
    else
      var n := |phones| - 1;
      var f := FirstRaise(phones[..n], parse);
      if f.Some? then f else if RaisesAt(phones[n], parse) then Some(n) else None
  }

  /** A number element before rendering: its type, sequence id and text. */
  datatype PhoneEntry = PhoneEntry(ntype: PhoneType, id: nat, number: string)

  /** The reference numbering: the k-th surviving field gets sequence id k and
      the type of the position it came from. */
  function Numbered(phones: seq<Cell>, parse: FloatParser): (es: seq<PhoneEntry>)
    requires |phones| <= 3
    ensures |es| == |Kept(phones, parse)|
  {
    var ks := Kept(phones, parse);
    seq(|ks|, k requires 0 <= k < |ks| => PhoneEntry(TypeAt(ks[k]), k, phones[ks[k]].value))
  }

  function RenderNumbers(es: seq<PhoneEntry>): (xs: seq<string>)
    ensures |xs| == |es|
  {
    seq(|es|, k requires 0 <= k < |es| => NumberToXml(es[k].number, es[k].ntype, es[k].id))
  }

  /** The telephony block with the count it should declare: the number of
      emitted entries. */
  function TelephonyXml(phones: seq<Cell>, parse: FloatParser): (r: Result<string>)
    requires |phones| <= 3
    ensures r.Err? <==> FirstRaise(phones, parse).Some?
    ensures r.Err? ==> r.error == ValueError(phones[FirstRaise(phones, parse).value].value)
  {
    match FirstRaise(phones, parse)
    case Some(i) => Err(ValueError(phones[i].value))
    case None =>
      var es := Numbered(phones, parse);
      Ok(TelephonyTemplate(Decimal(|es|), Join("\n", RenderNumbers(es))))
  }

  /** The telephony block as `numbers2xml` writes it: the declared count is
      `3 - index_shift` whatever the length of the phone slice. */
  function TelephonyXmlAsWritten(phones: seq<Cell>, parse: FloatParser): (r: Result<string>)
    requires |phones| <= 3
    ensures r.Err? <==> FirstRaise(phones, parse).Some?
    ensures r.Err? ==> r.error == ValueError(phones[FirstRaise(phones, parse).value].value)
    ensures r.Ok? ==> r.value == TelephonyTemplate(Decimal(|Kept(phones, parse)| + (3 - |phones|)),
                                                   Join("\n", RenderNumbers(Numbered(phones, parse))))
  {
    match FirstRaise(phones, parse)
    case Some(i) => Err(ValueError(phones[i].value))
    case None =>
      SkippedPlusKept(phones, parse);
      var es := Numbered(phones, parse);
      Ok(TelephonyTemplate(Decimal(3 - Skipped(phones, parse)), Join("\n", RenderNumbers(es))))
  }

  /** Every field is either kept or counted in `index_shift`. */
  lemma {:induction false} SkippedPlusKept(phones: seq<Cell>, parse: FloatParser)
    ensures Skipped(phones, parse) + |Kept(phones, parse)| == |phones|
    decreases |phones|
  {
    if |phones| > 0 {
      SkippedPlusKept(phones[..|phones| - 1], parse);
    }
  }

  /** Appending one field appends at most one entry, numbered after the others. */
  lemma NumberedSnoc(phones: seq<Cell>, c: Cell, parse: FloatParser)
    requires |phones| < 3
    ensures Numbered(phones + [c], parse) ==
      Numbered(phones, parse)
      + (if Survives(c, parse) then [PhoneEntry(TypeAt(|phones|), |Kept(phones, parse)|, c.value)] else [])
  {
    var s := phones + [c];
    assert s[..|phones|] == phones;
    var ks := Kept(phones, parse);
    var ks' := Kept(s, parse);
    assert ks' == ks + (if Survives(c, parse) then [|phones|] else []);
    var es, es' := Numbered(phones, parse), Numbered(s, parse);
    var extra := if Survives(c, parse) then [PhoneEntry(TypeAt(|phones|), |ks|, c.value)] else [];
    forall k | 0 <= k < |ks|
      ensures es'[k] == es[k]
    {
      assert ks'[k] == ks[k] && s[ks[k]] == phones[ks[k]];
    }
    if Survives(c, parse) {
      assert es'[|ks|] == extra[0];
    }
    assert |es'| == |es| + |extra|;
    assert es' == es + extra;
  }

  /** The loop of `numbers2xml`: walks the phone fields, skips missing and
      NaN ones while counting them in `index_shift`, and numbers each
      survivor `index - index_shift`.  It stops with the ValueError of the
      first field `float` rejects; otherwise it gives the rendered elements
      and the final `index_shift`. */
  method CollectNumbers(phones: seq<Cell>, parse: FloatParser) returns (r: Result<(seq<string>, nat)>)
    requires |phones| <= 3
    ensures FirstRaise(phones, parse).Some? ==>
      r == Err(ValueError(phones[FirstRaise(phones, parse).value].value))
    ensures FirstRaise(phones, parse).None? ==>
      r == Ok((RenderNumbers(Numbered(phones, parse)), Skipped(phones, parse)))
  {
    var xmlNumbers: seq<string> := [];
    var indexShift := 0;
    for index := 0 to |phones|
      invariant indexShift == index - |Kept(phones[..index], parse)|
      invariant FirstRaise(phones[..index], parse) == None
      invariant xmlNumbers == RenderNumbers(Numbered(phones[..index], parse))
    {
      var number := phones[index];
      if RaisesAt(number, parse) {
        FirstRaiseFound(phones, index, parse);
        return Err(ValueError(number.value));
      }
      LoopStep(phones, parse, index, indexShift, xmlNumbers);
      if Survives(number, parse) {
        xmlNumbers := xmlNumbers + [NumberToXml(number.value, TypeAt(index), index - indexShift)];
      } else {
        indexShift := indexShift + 1;
      }
    }
    LoopDone(phones, parse, indexShift, xmlNumbers);
    r := Ok((xmlNumbers, indexShift));
  }

  /** `numbers2xml` with the count it should declare: the number of
      emitted elements. */
  method NumbersToXml(phones: seq<Cell>, parse: FloatParser) returns (r: Result<string>)
    requires |phones| <= 3
    ensures r == TelephonyXml(phones, parse)
  {
    var collected := CollectNumbers(phones, parse);
    match collected
    case Err(e) =>
      r := Err(e);
    case Ok((xmlNumbers, _)) =>
      r := Ok(TelephonyTemplate(Decimal(|xmlNumbers|), Join("\n", xmlNumbers)));
  }

  /** `numbers2xml` as written: the count is `3 - index_shift`. */
  method NumbersToXmlAsWritten(phones: seq<Cell>, parse: FloatParser) returns (r: Result<string>)
    requires |phones| <= 3
    ensures r == TelephonyXmlAsWritten(phones, parse)
  {
    var collected := CollectNumbers(phones, parse);
    match collected
    case Err(e) =>
      r := Err(e);
    case Ok((xmlNumbers, indexShift)) =>
      r := Ok(TelephonyTemplate(Decimal(3 - indexShift), Join("\n", xmlNumbers)));
  }

  /** Once every field is visited without a raise, the loop's state is the
      reference numbering and the final `index_shift`. */
  lemma LoopDone(phones: seq<Cell>, parse: FloatParser, indexShift: int, xmlNumbers: seq<string>)
    requires |phones| <= 3
    requires indexShift == |phones| - |Kept(phones[..|phones|], parse)|
    requires FirstRaise(phones[..|phones|], parse) == None
    requires xmlNumbers == RenderNumbers(Numbered(phones[..|phones|], parse))
    ensures FirstRaise(phones, parse) == None
    ensures xmlNumbers == RenderNumbers(Numbered(phones, parse))
    ensures indexShift == Skipped(phones, parse)
  {
    assert phones[..|phones|] == phones;
    SkippedPlusKept(phones, parse);
  }

  /** One pass of the loop over a field that does not raise keeps the
      invariants of NumbersToXml. */
  lemma LoopStep(phones: seq<Cell>, parse: FloatParser, index: nat, indexShift: int, xmlNumbers: seq<string>)
    requires index < |phones| <= 3 && !RaisesAt(phones[index], parse)
    requires indexShift == index - |Kept(phones[..index], parse)|
    requires FirstRaise(phones[..index], parse) == None
    requires xmlNumbers == RenderNumbers(Numbered(phones[..index], parse))
    ensures FirstRaise(phones[..index + 1], parse) == None
    ensures Survives(phones[index], parse) ==>
      indexShift == index + 1 - |Kept(phones[..index + 1], parse)|
      && xmlNumbers + [NumberToXml(phones[index].value, TypeAt(index), index - indexShift)]
         == RenderNumbers(Numbered(phones[..index + 1], parse))
    ensures !Survives(phones[index], parse) ==>
      indexShift + 1 == index + 1 - |Kept(phones[..index + 1], parse)|
      && xmlNumbers == RenderNumbers(Numbered(phones[..index + 1], parse))
  {
    PrefixStep(phones, index, parse);
  }

  /** How the loop's view of the fields grows by one position. */
  lemma PrefixStep(phones: seq<Cell>, index: nat, parse: FloatParser)
    requires index < |phones| <= 3
    ensures Kept(phones[..index + 1], parse)
      == Kept(phones[..index], parse) + (if Survives(phones[index], parse) then [index] else [])
    ensures FirstRaise(phones[..index], parse) == None && !RaisesAt(phones[index], parse)
      ==> FirstRaise(phones[..index + 1], parse) == None
    ensures RenderNumbers(Numbered(phones[..index + 1], parse))
      == RenderNumbers(Numbered(phones[..index], parse))
      + (if Survives(phones[index], parse)
         then [NumberToXml(phones[index].value, TypeAt(index), |Kept(phones[..index], parse)|)] else [])
  {
    assert phones[..index + 1] == phones[..index] + [phones[index]];
    assert phones[..index + 1][..index] == phones[..index];
    NumberedSnoc(phones[..index], phones[index], parse);
  }

  /** The first raising field the loop meets is the first raising field overall. */
  lemma FirstRaiseFound(phones: seq<Cell>, index: nat, parse: FloatParser)
    requires index < |phones|
    requires FirstRaise(phones[..index], parse) == None && RaisesAt(phones[index], parse)
    ensures FirstRaise(phones, parse) == Some(index)
  {
    var f := FirstRaise(phones, parse);
    assert forall j :: 0 <= j < index ==> phones[..index][j] == phones[j];
  }

  // ---------------------------------------------------------------------
  // Contacts
  // ---------------------------------------------------------------------

  /** The present values among the given cells, in order. */
  function Present(cs: seq<Cell>): (r: seq<string>)
    ensures |r| <= |cs|
  {
    if |cs| == 0 then []
    else (if cs[0].Some? then [cs[0].value] else []) + Present(cs[1..])
  }

  /** `" ".join(item for item in entry[1:3] if not a float)`: no part gives
      the empty name, one part gives that part, two give them space-separated. */
  function DisplayName(cells: seq<Cell>): (name: string)
    ensures var ps := Present(Slice(cells, 0, 2));
      |ps| <= 2
      && name == (if |ps| == 0 then "" else if |ps| == 1 then ps[0] else ps[0] + " " + ps[1])
  {
    var ps := Present(Slice(cells, 0, 2));
    assert |ps| == 2 ==> ps[1..] == [ps[1]] && Join(" ", ps[1..]) == ps[1];
    Join(" ", ps)
  }

  /** `entry[3:6]`. */
  function PhoneSlice(cells: seq<Cell>): (r: seq<Cell>)
    ensures |r| <= 3
    ensures |cells| >= 5 ==> r == cells[2..5]
  {
    Slice(cells, 2, 5)
  }

  /** The contact fragment `contact2xml` produces for one entry, with the
      clock reading `modTime`. */
  function ContactXml(entry: Entry, parse: FloatParser, modTime: nat): (r: Result<string>)
  {
    match TelephonyXml(PhoneSlice(entry.cells), parse)
    case Err(e) => Err(e)
    case Ok(t) => Ok(ContactTemplate(DisplayName(entry.cells), t, Decimal(modTime), Decimal(entry.index)))
  }

  /** `contact2xml` as the program runs it: the same fragment as ContactXml,
      but built with the `numbers2xml` loop (NumbersToXml), so that the
      document loop below runs the loops the source runs. */
  method ContactToXml(entry: Entry, parse: FloatParser, modTime: nat) returns (r: Result<string>)
    ensures r == ContactXml(entry, parse, modTime)
  {
    var name := DisplayName(entry.cells);
    var id := entry.index;
    var telephony := NumbersToXml(PhoneSlice(entry.cells), parse);
    match telephony
    case Err(e) =>
      r := Err(e);
    case Ok(t) =>
      r := Ok(ContactTemplate(name, t, Decimal(modTime), Decimal(id)));
  }

  // ---------------------------------------------------------------------
  // Document
  // ---------------------------------------------------------------------

  /** All values when every result is `Ok`; otherwise the error of the first
      result that is not. */
  function Collect<T>(rs: seq<Result<T>>): (r: Result<seq<T>>)
    ensures r.Ok? <==> forall k :: 0 <= k < |rs| ==> rs[k].Ok?
    ensures r.Ok? ==> |r.value| == |rs| && forall k :: 0 <= k < |rs| ==> rs[k] == Ok(r.value[k])
    ensures r.Err? ==> exists k :: 0 <= k < |rs| && rs[k] == Err(r.error) && forall j :: 0 <= j < k ==> rs[j].Ok?
    decreases |rs|
  {
    if |rs| == 0 then Ok([])
    else
      var n := |rs| - 1;
      assert forall j :: 0 <= j < n ==> rs[..n][j] == rs[j];
      match Collect(rs[..n])
      case Err(e) => Err(e)
      case Ok(xs) =>
        match rs[n]
        case Err(e) => Err(e)
        case Ok(x) => Ok(xs + [x])
  }

  /** The fragment of every row: row k rendered with index k and clock reading `clock(k)`. */
  function ContactResults(frame: seq<seq<Cell>>, parse: FloatParser, clock: nat -> nat): (rs: seq<Result<string>>)
    ensures |rs| == |frame|
  {
    seq(|frame|, k requires 0 <= k < |frame| => ContactXml(Entry(k, frame[k]), parse, clock(k)))
  }

  /** The whole document, or the error that aborts the conversion. */
  function DocumentXml(frame: seq<seq<Cell>>, parse: FloatParser, clock: nat -> nat): (r: Result<string>)
  {
    match Collect(ContactResults(frame, parse, clock))
    case Err(e) => Err(e)
    case Ok(xs) => Ok(XmlTemplate(Join("\n", xs)))
  }

  /** `csv2fritzbox` without the file read and write: one fragment per row,
      in row order, newline-joined inside the envelope. */
  method Csv2FritzBox(frame: seq<seq<Cell>>, parse: FloatParser, clock: nat -> nat) returns (r: Result<string>)
    ensures r == DocumentXml(frame, parse, clock)
  {
    var xmlContacts: seq<string> := [];
    for k := 0 to |frame|
      invariant Collect(ContactResults(frame, parse, clock)[..k]) == Ok(xmlContacts)
    {
      var c := RowToXml(frame, parse, clock, k, xmlContacts);
      if c.Err? {
        return Err(c.error);
      }
      xmlContacts := xmlContacts + [c.value];
    }
    RowsDone(frame, parse, clock, xmlContacts);
    r := Ok(XmlTemplate(Join("\n", xmlContacts)));
  }

  /** The body of the document loop for row `k`: `contact2xml` on that row,
      with what it means for the document collected so far. */
  method RowToXml(frame: seq<seq<Cell>>, parse: FloatParser, clock: nat -> nat, k: nat, xs: seq<string>) returns (c: Result<string>)
    requires k < |frame|
    requires Collect(ContactResults(frame, parse, clock)[..k]) == Ok(xs)
    ensures c.Err? ==> DocumentXml(frame, parse, clock) == Err(c.error)
    ensures c.Ok? ==> Collect(ContactResults(frame, parse, clock)[..k + 1]) == Ok(xs + [c.value])
  {
    c := ContactToXml(Entry(k, frame[k]), parse, clock(k));
    RowStep(frame, parse, clock, k, xs, c);
  }

  /** One pass of the document loop: a failing row aborts the document with
      its error, a successful row extends the collected fragments. */
  lemma RowStep(frame: seq<seq<Cell>>, parse: FloatParser, clock: nat -> nat, k: nat, xs: seq<string>, c: Result<string>)
    requires k < |frame|
    requires Collect(ContactResults(frame, parse, clock)[..k]) == Ok(xs)
    requires c == ContactXml(Entry(k, frame[k]), parse, clock(k))
    ensures c.Err? ==> DocumentXml(frame, parse, clock) == Err(c.error)
    ensures c.Ok? ==> Collect(ContactResults(frame, parse, clock)[..k + 1]) == Ok(xs + [c.value])
  {
    var rs := ContactResults(frame, parse, clock);
    assert c == rs[k];
    if c.Err? {
      CollectFirstErr(rs, k);
    } else {
      CollectStep(rs, k, xs);
    }
  }

  /** The exit of the document loop: every row collected gives the document. */
  lemma RowsDone(frame: seq<seq<Cell>>, parse: FloatParser, clock: nat -> nat, xs: seq<string>)
    requires Collect(ContactResults(frame, parse, clock)[..|frame|]) == Ok(xs)
    ensures DocumentXml(frame, parse, clock) == Ok(XmlTemplate(Join("\n", xs)))
  {
    var rs := ContactResults(frame, parse, clock);
    assert rs[..|frame|] == rs;
  }

  /** Collecting one more successful result appends its value. */
  lemma CollectStep<T>(rs: seq<Result<T>>, k: nat, xs: seq<T>)
    requires k < |rs| && rs[k].Ok?
    requires Collect(rs[..k]) == Ok(xs)
    ensures Collect(rs[..k + 1]) == Ok(xs + [rs[k].value])
  {
    assert rs[..k + 1][..k] == rs[..k];
  }

  /** Collecting stops at the first error. */
  lemma CollectFirstErr<T>(rs: seq<Result<T>>, k: nat)
    requires k < |rs| && rs[k].Err?
    requires Collect(rs[..k]).Ok?
    ensures Collect(rs) == Err(rs[k].error)
  {
    assert forall j :: 0 <= j < k ==> rs[..k][j] == rs[j];
    var r := Collect(rs);
    var k' :| 0 <= k' < |rs| && rs[k'] == Err(r.error) && forall j :: 0 <= j < k' ==> rs[j].Ok?;
    assert k' == k;
  }
}
