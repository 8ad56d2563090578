/** `format_contact_info` (whatsapp-mcp-server/whatsapp.py): the text a
    contact is shown as. */
module ContactFormat {
  import opened Common
  import opened Text
  import opened Tables

  /** The name and phone line, then the JID line. */
  function Header(c: Contact): string
  {
    "\U{1F4F1} " + c.name + " (" + c.phoneNumber + ")\n" + "   JID: " + c.jid + "\n"
  }

  /** One optional line of `format_contact_info`. */
  function Line(caption: string, value: string): string
  {
    "   " + caption + ": " + value + "\n"
  }

  /** A line that appears only when its condition holds. */
  function LineIf(cond: bool, caption: string, value: string): string
  {
    if cond then Line(caption, value) else ""
  }

  /** The lines after the JID line, before the nickname, one `if` each. */
  function NameLines(c: Contact): string
  {
    LineIf(Truthy(c.fullName) && c.fullName.value != c.name, "Full Name", OrElse(c.fullName, ""))
    + LineIf(Truthy(c.firstName) && c.firstName.value != c.name, "First Name", OrElse(c.firstName, ""))
    + LineIf(Truthy(c.pushName) && c.pushName.value != c.name, "Display Name", OrElse(c.pushName, ""))
    + LineIf(Truthy(c.businessName), "Business", OrElse(c.businessName, ""))
  }

  function NicknameLine(c: Contact): string
  {
    LineIf(Truthy(c.nickname), "Nickname", OrElse(c.nickname, ""))
  }

  lemma ConcatEnds(a: string, b: string)
    ensures StartsWith(a + b, a) && EndsWith(a + b, b)
  {
    assert (a + b)[..|a|] == a;
    assert (a + b)[|a|..] == b;
  }

  lemma ConcatEndsRight(a: string, b: string, c: string)
    ensures EndsWith(a + (b + c), c)
  {
    assert (a + (b + c))[|a + b|..] == c;
  }

  /** `format_contact_info`: the name, phone and JID lines, then exactly
      the detail lines of `Details`, each once, in print order, the nickname
      last. */
  function FormatContactInfo(c: Contact): (r: string)
    ensures r == Header(c) + RenderDetails(Details(c))
    ensures StartsWith(r, Header(c))
    ensures Truthy(c.nickname) ==> EndsWith(r, Line("Nickname", c.nickname.value))
  {
    var h := Header(c);
    var n := NicknameLine(c);
    var d := NameLines(c) + n;
    ConcatEnds(h, d);
    ConcatEndsRight(h, NameLines(c), n);
    RenderFields(c);
    SourceLines(c);
    Regroup(FieldLine(c, FullName), FieldLine(c, FirstName), FieldLine(c, DisplayName),
      FieldLine(c, Business), FieldLine(c, Nickname));
    h + d
  }

  /** A contact whose name columns all equal the display name (or are empty),
      with no business name and no nickname, prints just the header. */
  lemma FormatContactInfoPlain(c: Contact)
    requires !Truthy(c.fullName) || c.fullName.value == c.name
    requires !Truthy(c.firstName) || c.firstName.value == c.name
    requires !Truthy(c.pushName) || c.pushName.value == c.name
    requires !Truthy(c.businessName) && !Truthy(c.nickname)
    ensures FormatContactInfo(c) == Header(c)
  {
    assert NameLines(c) == "" && NicknameLine(c) == "";
  }

  /** The detail lines that may follow the header. */
  datatype Field = FullName | FirstName | DisplayName | Business | Nickname

  /** The detail lines in the order they are printed. */
  const Fields: seq<Field> := [FullName, FirstName, DisplayName, Business, Nickname]

  function Caption(f: Field): string
  {
    match f
    case FullName => "Full Name"
    case FirstName => "First Name"
    case DisplayName => "Display Name"
    case Business => "Business"
    case Nickname => "Nickname"
  }

  /** Position of a field in print order. */
  function Rank(f: Field): nat
  {
    match f
    case FullName => 0
    case FirstName => 1
    case DisplayName => 2
    case Business => 3
    case Nickname => 4
  }

  /** The column a field prints. */
  function Column(c: Contact, f: Field): Option<string>
  {
    match f
    case FullName => c.fullName
    case FirstName => c.firstName
    case DisplayName => c.pushName
    case Business => c.businessName
    case Nickname => c.nickname
  }

  /** When a field is printed: a name column when non-empty and different
      from the display name; the business name and the nickname whenever
      non-empty. */
  predicate Shown(c: Contact, f: Field)
  {
    Truthy(Column(c, f)) && (f in {FullName, FirstName, DisplayName} ==> Column(c, f).value != c.name)
  }

  /** One detail line: its field and the printed value. */
  datatype Detail = Detail(field: Field, value: string)

  /** Each detail line comes before those of later fields. */
  predicate InPrintOrder(ds: seq<Detail>)
  {
    forall i, j :: 0 <= i < j < |ds| ==> Rank(ds[i].field) < Rank(ds[j].field)
  }

  /** The detail lines for the fields `fs`, in the order of `fs`. */
  function DetailsOf(c: Contact, fs: seq<Field>): seq<Detail>
  {
    if fs == [] then []
    else if Shown(c, fs[0]) then [Detail(fs[0], Column(c, fs[0]).value)] + DetailsOf(c, fs[1..])
    else DetailsOf(c, fs[1..])
  }

  /** A detail line is listed exactly when its field is among `fs` and
      shown, with the column's value. */
  lemma {:induction false} DetailsOfMembers(c: Contact, fs: seq<Field>, d: Detail)
    ensures d in DetailsOf(c, fs) <==> d.field in fs && Shown(c, d.field) && d.value == Column(c, d.field).value
  {
    if fs != [] {
      DetailsOfMembers(c, fs[1..], d);
      assert forall f :: f in fs <==> f == fs[0] || f in fs[1..];
    }
  }

  /** Fields in strictly increasing print order give detail lines in
      strictly increasing print order. */
  lemma {:induction false} DetailsOfOrdered(c: Contact, fs: seq<Field>)
    requires forall i, j :: 0 <= i < j < |fs| ==> Rank(fs[i]) < Rank(fs[j])
    ensures InPrintOrder(DetailsOf(c, fs))
  {
    if fs != [] {
      DetailsOfOrdered(c, fs[1..]);
      var r := DetailsOf(c, fs);
      var t := DetailsOf(c, fs[1..]);
      forall k | 0 <= k < |t| ensures Rank(fs[0]) < Rank(t[k].field) {
        DetailsOfMembers(c, fs[1..], t[k]);
        var m :| 0 <= m < |fs[1..]| && fs[1..][m] == t[k].field;
        assert fs[m + 1] == t[k].field;
      }
      if Shown(c, fs[0]) {
        forall i, j | 0 <= i < j < |r| ensures Rank(r[i].field) < Rank(r[j].field) {
          assert r[j] == t[j - 1];
          if i > 0 {
            assert r[i] == t[i - 1];
          }
        }
      }
    }
  }

  /** Every field is among `Fields`. */
  lemma AllFields(f: Field)
    ensures f in Fields
  {
    match f
    case FullName => assert Fields[0] == f;
    case FirstName => assert Fields[1] == f;
    case DisplayName => assert Fields[2] == f;
    case Business => assert Fields[3] == f;
    case Nickname => assert Fields[4] == f;
  }

  /** The detail lines of a contact, in print order. */
  function Details(c: Contact): (r: seq<Detail>)
    ensures forall d :: d in r <==> Shown(c, d.field) && d.value == Column(c, d.field).value
    ensures InPrintOrder(r)
  {
    DetailsMembers(c);
    DetailsOfOrdered(c, Fields);
    DetailsOf(c, Fields)
  }

  lemma DetailsMembers(c: Contact)
    ensures forall d :: d in DetailsOf(c, Fields) <==> Shown(c, d.field) && d.value == Column(c, d.field).value
  {
    forall d ensures d in DetailsOf(c, Fields) <==> Shown(c, d.field) && d.value == Column(c, d.field).value {
      DetailsOfMembers(c, Fields, d);
      AllFields(d.field);
    }
  }

  /** The printed detail lines, one after another. */
  function RenderDetails(ds: seq<Detail>): string
  {
    if ds == [] then "" else Line(Caption(ds[0].field), ds[0].value) + RenderDetails(ds[1..])
  }

  /** The lines for `fs` are the line of its first field, when shown,
      followed by the lines of the rest. */
  lemma RenderFirst(c: Contact, fs: seq<Field>)
    requires fs != []
    ensures RenderDetails(DetailsOf(c, fs)) == FieldLine(c, fs[0]) + RenderDetails(DetailsOf(c, fs[1..]))
  {
    if Shown(c, fs[0]) {
      var t := DetailsOf(c, fs[1..]);
      assert ([Detail(fs[0], Column(c, fs[0]).value)] + t)[1..] == t;
    }
  }

  /** The line of one field: present exactly when the field is shown. */
  function FieldLine(c: Contact, f: Field): string
  {
    LineIf(Shown(c, f), Caption(f), OrElse(Column(c, f), ""))
  }

  lemma RenderFields(c: Contact)
    ensures RenderDetails(DetailsOf(c, Fields)) == FieldLine(c, FullName) + (FieldLine(c, FirstName)
      + (FieldLine(c, DisplayName) + (FieldLine(c, Business) + FieldLine(c, Nickname))))
  {
    var f4, f3, f2, f1 := [Nickname], [Business, Nickname], [DisplayName, Business, Nickname],
      [FirstName, DisplayName, Business, Nickname];
    RenderFirst(c, f4);
    assert f4[1..] == [];
    assert FieldLine(c, Nickname) + "" == FieldLine(c, Nickname);
    var r4 := RenderDetails(DetailsOf(c, f4));
    assert r4 == FieldLine(c, Nickname);
    RenderFirst(c, f3);
    assert f3[1..] == f4;
    var r3 := RenderDetails(DetailsOf(c, f3));
    assert r3 == FieldLine(c, Business) + r4;
    RenderFirst(c, f2);
    assert f2[1..] == f3;
    var r2 := RenderDetails(DetailsOf(c, f2));
    assert r2 == FieldLine(c, DisplayName) + r3;
    RenderFirst(c, f1);
    assert f1[1..] == f2;
    var r1 := RenderDetails(DetailsOf(c, f1));
    assert r1 == FieldLine(c, FirstName) + r2;
    RenderFirst(c, Fields);
    assert Fields[1..] == f1;
  }

  lemma SourceLines(c: Contact)
    ensures NameLines(c) + NicknameLine(c) == FieldLine(c, FullName) + FieldLine(c, FirstName)
      + FieldLine(c, DisplayName) + FieldLine(c, Business) + FieldLine(c, Nickname)
  {
  }

  lemma Regroup(u: string, f: string, p: string, d: string, e: string)
    ensures u + f + p + d + e == u + (f + (p + (d + e)))
  {
    assert u + f + p == u + (f + p);
    assert u + (f + p) + d == u + (f + p + d);
    assert f + p + d == f + (p + d);
    assert u + (f + (p + d)) + e == u + (f + (p + d) + e);
    assert f + (p + d) + e == f + (p + d + e);
    assert p + d + e == p + (d + e);
  }
}
