/**
 The laws asked of the JSON library can be met: some printers and parsers give
 back every identity, every status record and every pair of maps. The numbers
 of a record are integers and multiples of 1/10000, so a text can hold them.
 */
module Codecs {
  import opened Domain
  import opened Metadata
  import opened History
  import opened Decimal
  import opened Resp
  import JsonStore

  ghost predicate Injective<T(!new)>(enc: T -> string) {
    forall x, y | enc(x) == enc(y) :: x == y
  }

  /** The parser that undoes an injective printer. */
  ghost function Inverse<T(!new)>(enc: T -> string): string -> Option<T> {
    s => if exists x :: enc(x) == s then var x :| enc(x) == s; Some(x) else None
  }

  lemma InverseIsLawful<T(!new)>(enc: T -> string)
    requires Injective(enc)
    ensures Lawful(Codec(enc, Inverse(enc)))
  {
    forall x ensures Inverse(enc)(enc(x)) == Some(x) {
      assert enc(x) == enc(x);
    }
  }

  // ---------- the fields of a record ----------

  function Numeral(i: int): string {
    if i < 0 then "-" + Itoa(-i) else Itoa(i)
  }

  lemma NumeralInjective(i: int, j: int)
    requires Numeral(i) == Numeral(j)
    ensures i == j
  {
    ItoaValue(if i < 0 then -i else i);
    ItoaValue(if j < 0 then -j else j);
    assert !IsDigit('-');
    if i < 0 {
      assert Numeral(i)[0] == '-' && Numeral(i)[1..] == Itoa(-i);
    }
    if j < 0 {
      assert Numeral(j)[0] == '-' && Numeral(j)[1..] == Itoa(-j);
    }
  }

  function Places(v: FourPlaces): string {
    Numeral((v * 10000.0).Floor)
  }

  lemma PlacesInjective(v: FourPlaces, w: FourPlaces)
    requires Places(v) == Places(w)
    ensures v == w
  {
    NumeralInjective((v * 10000.0).Floor, (w * 10000.0).Floor);
  }

  function Flag(b: bool): string {
    if b then "true" else "false"
  }

  function DecisionName(d: Decision): string {
    match d
    case NewUser => "N"
    case AlreadyExists => "A"
    case PotentialFraud => "F"
    case PartialMatch => "P"
    case Matched => "M"
    case NoMatch => "X"
  }

  function StatusName(s: Status): string {
    match s
    case Accepted => "A"
    case Processing => "P"
    case Completed => "C"
    case Failed => "F"
  }

  function TypeName(t: JobType): string {
    match t
    case Enroll => "E"
    case Verify => "V"
    case Other(name) => "O" + name
  }

  lemma NamesInjective(d: Decision, d': Decision, s: Status, s': Status, t: JobType, t': JobType)
    ensures DecisionName(d) == DecisionName(d') ==> d == d'
    ensures StatusName(s) == StatusName(s') ==> s == s'
    ensures TypeName(t) == TypeName(t') ==> t == t'
  {
    assert forall x, y | DecisionName(x) == DecisionName(y) :: DecisionName(x)[0] == DecisionName(y)[0];
    assert forall x, y | StatusName(x) == StatusName(y) :: StatusName(x)[0] == StatusName(y)[0];
    assert TypeName(t)[0] == TypeName(t')[0] || TypeName(t) != TypeName(t');
    assert t.Other? ==> TypeName(t)[1..] == t.name;
    assert t'.Other? ==> TypeName(t')[1..] == t'.name;
  }

  lemma CommandInjective(a: seq<string>, b: seq<string>)
    requires Command(a) == Command(b)
    ensures a == b
  {
    CommandRoundTrip(a, "");
    CommandRoundTrip(b, "");
  }

  function IdentityText(m: IdentityMetadata): string {
    Command([m.id, m.did, m.demographicHash, m.nameHash, Numeral(m.createdAt), Numeral(m.updatedAt), m.status])
  }

  function ResponseFields(r: Response): seq<string> {
    [r.txn, r.id, r.did, DecisionName(r.decision), Places(r.confidence), r.candidate, Places(r.faceSimilarity),
     Places(r.nameSimilarity), Flag(r.demographicMatch), Flag(r.live.passed), Places(r.live.score)]
  }

  function ResultText(r: Option<Response>): string {
    if r.None? then "" else Command(ResponseFields(r.value))
  }

  function StatusText(rec: StatusRecord): string {
    Command([rec.txn, TypeName(rec.typ), StatusName(rec.status), ResultText(rec.result), rec.error, rec.callback,
             Numeral(rec.createdAt), Numeral(rec.updatedAt)])
  }

  lemma IdentityTextInjective(x: IdentityMetadata, y: IdentityMetadata)
    requires IdentityText(x) == IdentityText(y)
    ensures x == y
  {
    var a := [x.id, x.did, x.demographicHash, x.nameHash, Numeral(x.createdAt), Numeral(x.updatedAt), x.status];
    var b := [y.id, y.did, y.demographicHash, y.nameHash, Numeral(y.createdAt), Numeral(y.updatedAt), y.status];
    CommandInjective(a, b);
    hide Command, Numeral;
    assert forall i | 0 <= i < 7 :: a[i] == b[i];
    assert a[0] == b[0] && a[1] == b[1] && a[2] == b[2] && a[3] == b[3] && a[6] == b[6];
    assert a[4] == b[4] && a[5] == b[5];
    NumeralInjective(x.createdAt, y.createdAt);
    NumeralInjective(x.updatedAt, y.updatedAt);
  }

  lemma ResponseFieldsInjective(x: Response, y: Response)
    requires ResponseFields(x) == ResponseFields(y)
    ensures x == y
  {
    hide Places, DecisionName;
    var a, b := ResponseFields(x), ResponseFields(y);
    assert a[0] == b[0] && a[1] == b[1] && a[2] == b[2] && a[3] == b[3] && a[4] == b[4] && a[5] == b[5];
    assert a[6] == b[6] && a[7] == b[7] && a[8] == b[8] && a[9] == b[9] && a[10] == b[10];
    NamesInjective(x.decision, y.decision, Failed, Failed, Enroll, Enroll);
    PlacesInjective(x.confidence, y.confidence);
    PlacesInjective(x.faceSimilarity, y.faceSimilarity);
    PlacesInjective(x.nameSimilarity, y.nameSimilarity);
    PlacesInjective(x.live.score, y.live.score);
    assert "true"[0] != "false"[0];
  }

  lemma ResultTextInjective(x: Option<Response>, y: Option<Response>)
    requires ResultText(x) == ResultText(y)
    ensures x == y
  {
    hide ResponseFields;
    if x.Some? {
      assert ResultText(x)[0] == '*';
    }
    if x.Some? && y.Some? {
      CommandInjective(ResponseFields(x.value), ResponseFields(y.value));
      ResponseFieldsInjective(x.value, y.value);
    }
  }

  lemma StatusTextInjective(x: StatusRecord, y: StatusRecord)
    requires StatusText(x) == StatusText(y)
    ensures x == y
  {
    var a := [x.txn, TypeName(x.typ), StatusName(x.status), ResultText(x.result), x.error, x.callback,
              Numeral(x.createdAt), Numeral(x.updatedAt)];
    var b := [y.txn, TypeName(y.typ), StatusName(y.status), ResultText(y.result), y.error, y.callback,
              Numeral(y.createdAt), Numeral(y.updatedAt)];
    CommandInjective(a, b);
    hide Command, Numeral, TypeName, StatusName, ResultText;
    assert a[0] == b[0] && a[1] == b[1] && a[2] == b[2] && a[3] == b[3];
    assert a[4] == b[4] && a[5] == b[5] && a[6] == b[6] && a[7] == b[7];
    NamesInjective(NoMatch, NoMatch, x.status, y.status, x.typ, y.typ);
    ResultTextInjective(x.result, y.result);
    NumeralInjective(x.createdAt, y.createdAt);
    NumeralInjective(x.updatedAt, y.updatedAt);
  }

  // ---------- a whole file ----------

  /** The entries of a map in some order, key and value in turn. */
  ghost function Entries<T>(m: map<string, T>, enc: T -> string): seq<string>
    decreases |m|
  {
    if m == map[] then []
    else
      var k :| k in m;
      assert |m - {k}| < |m| by { assert (m - {k}).Keys == m.Keys - {k}; }
      [k, enc(m[k])] + Entries(m - {k}, enc)
  }

  lemma {:induction false} EntriesInjective<T(!new)>(x: map<string, T>, y: map<string, T>, enc: T -> string)
    requires Injective(enc) && Entries(x, enc) == Entries(y, enc)
    ensures x == y
    decreases |x|
  {
    var a, b := Entries(x, enc), Entries(y, enc);
    if x != map[] && y != map[] {
      var k := a[0];
      assert k in x && k in y && a[1] == enc(x[k]) && b[1] == enc(y[k]);
      assert a[2..] == Entries(x - {k}, enc) && b[2..] == Entries(y - {k}, enc);
      assert |x - {k}| < |x| by { assert (x - {k}).Keys == x.Keys - {k}; }
      EntriesInjective(x - {k}, y - {k}, enc);
      assert x == (x - {k})[k := x[k]] && y == (y - {k})[k := y[k]];
    }
  }

  ghost function MapsText(m: Maps): string {
    Command([Command(Entries(m.identities, IdentityText)), Command(Entries(m.statuses, StatusText))])
  }

  lemma MapsTextInjective(x: Maps, y: Maps)
    requires MapsText(x) == MapsText(y)
    ensures x == y
  {
    var a := [Command(Entries(x.identities, IdentityText)), Command(Entries(x.statuses, StatusText))];
    var b := [Command(Entries(y.identities, IdentityText)), Command(Entries(y.statuses, StatusText))];
    CommandInjective(a, b);
    hide Command, Entries, IdentityText, StatusText;
    assert a[0] == b[0] && a[1] == b[1];
    CommandInjective(Entries(x.identities, IdentityText), Entries(y.identities, IdentityText));
    CommandInjective(Entries(x.statuses, StatusText), Entries(y.statuses, StatusText));
    TextsInjective();
    EntriesInjective(x.identities, y.identities, IdentityText);
    EntriesInjective(x.statuses, y.statuses, StatusText);
  }

  lemma TextsInjective()
    ensures Injective(IdentityText) && Injective(StatusText)
  {
    hide IdentityText, StatusText;
    forall x, y | IdentityText(x) == IdentityText(y) ensures x == y {
      IdentityTextInjective(x, y);
    }
    forall x, y | StatusText(x) == StatusText(y) ensures x == y {
      StatusTextInjective(x, y);
    }
  }

  /** There are codecs and a file format of the kind the two stores ask for. */
  lemma LawsCanBeMet() returns (ci: Codec<IdentityMetadata>, cs: Codec<StatusRecord>, f: JsonStore.Format)
    ensures Lawful(ci) && Lawful(cs) && JsonStore.Sound(f)
  {
    hide IdentityText, StatusText, MapsText;
    TextsInjective();
    InverseIsLawful(IdentityText);
    InverseIsLawful(StatusText);
    ci, cs := Codec(IdentityText, Inverse(IdentityText)), Codec(StatusText, Inverse(StatusText));
    var text := (m: Maps) => MapsText(m);
    forall x, y | text(x) == text(y) ensures x == y {
      MapsTextInjective(x, y);
    }
    InverseIsLawful(text);
    var parse := Inverse(text);
    f := JsonStore.Format(text, s => match parse(s)
                                     case None => None
                                     case Some(m) => Some(JsonStore.Document(Some(m.identities), Some(m.statuses))));
    forall m ensures f.enc(m) != "" && f.dec(f.enc(m)) == Some(JsonStore.Document(Some(m.identities), Some(m.statuses))) {
      NotEmpty(m);
      assert Codec(text, parse).dec(Codec(text, parse).enc(m)) == Some(m);
    }
  }

  lemma NotEmpty(m: Maps)
    ensures MapsText(m) != ""
  {
    assert MapsText(m)[0] == '*';
  }
}
