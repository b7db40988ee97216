/** Reading one contacts provider: each cursor row carries a contact id, a
    display name and one phone number (or one e-mail address); rows with the
    same contact id are grouped into one partial `Contact`. The provider query
    itself is replaced by the sequence of rows it yields. */
module RowGrouping {
  import opened ContactModel

  /** One cursor row: CONTACT_ID, DISPLAY_NAME and NUMBER (or ADDRESS). */
  datatype Row = Row(contactId: int, displayName: Option<string>, value: Option<string>)

  /** The contact ids that occur in the rows. */
  function Ids(rows: seq<Row>): set<int>
  {
    set i | 0 <= i < |rows| :: rows[i].contactId
  }

  /** The positions of the rows that belong to contact `id`, in row order. */
  function RowPositions(rows: seq<Row>, id: int): (ps: seq<nat>)
    ensures forall t :: 0 <= t < |ps| ==> ps[t] < |rows| && rows[ps[t]].contactId == id
    ensures forall t, u :: 0 <= t < u < |ps| ==> ps[t] < ps[u]
    ensures forall j :: 0 <= j < |rows| && rows[j].contactId == id ==> j in ps
  {
    if rows == [] then []
    else
      var n := |rows| - 1;
      RowPositions(rows[..n], id) + (if rows[n].contactId == id then [n] else [])
  }

  /** The values (numbers or addresses) of contact `id`'s rows, in row order,
      a missing value read as "". */
  function ValuesOf(rows: seq<Row>, id: int): (vs: seq<string>)
    ensures |vs| == |RowPositions(rows, id)|
    ensures forall t :: 0 <= t < |vs| ==> vs[t] == OrEmpty(rows[RowPositions(rows, id)[t]].value)
  {
    if rows == [] then []
    else
      var n := |rows| - 1;
      ValuesOf(rows[..n], id) + (if rows[n].contactId == id then [OrEmpty(rows[n].value)] else [])
  }

  /** The position of the first row of contact `id`. */
  function FirstPosition(rows: seq<Row>, id: int): (k: nat)
    requires id in Ids(rows)
    ensures k < |rows| && rows[k].contactId == id
    ensures forall j :: 0 <= j < k ==> rows[j].contactId != id
  {
    var i :| 0 <= i < |rows| && rows[i].contactId == id;
    assert i in RowPositions(rows, id);
    RowPositions(rows, id)[0]
  }

  /** The display name a contact gets: that of its first row, a missing name read as "". */
  function FirstName(rows: seq<Row>, id: int): string
    requires id in Ids(rows)
  {
    OrEmpty(rows[FirstPosition(rows, id)].displayName)
  }

  /** The list field a target fills: phones for `Phones`, e-mails for `Emails`. */
  function ListOf(c: Contact, target: TargetInfo): seq<string>
    requires target != Basic
  {
    if target == Phones then c.phones else c.emails
  }

  /** The other list field: e-mails for `Phones`, phones for `Emails`. */
  function OtherOf(target: TargetInfo): (o: TargetInfo)
    requires target != Basic
    ensures o != Basic && o != target
  {
    if target == Phones then Emails else Phones
  }

  /** A partial record holding only what one target's provider knows. */
  function Record(target: TargetInfo, id: int, name: string, values: seq<string>): (c: Contact)
    requires target != Basic
    ensures c.id == IdString(id) && c.displayName == name
    ensures ListOf(c, target) == values && ListOf(c, OtherOf(target)) == []
  {
    Contact(IdString(id), name,
            if target == Phones then values else [],
            if target == Emails then values else [])
  }

  /** The record with `v` appended to the list field of `target`. */
  function AppendValue(c: Contact, target: TargetInfo, v: string): (r: Contact)
    requires target != Basic
    ensures ListOf(r, target) == ListOf(c, target) + [v]
    ensures r.id == c.id && r.displayName == c.displayName && ListOf(r, OtherOf(target)) == ListOf(c, OtherOf(target))
  {
    if target == Phones then c.(phones := c.phones + [v]) else c.(emails := c.emails + [v])
  }

  lemma {:induction false} IdsSnoc(rows: seq<Row>, row: Row)
    ensures Ids(rows + [row]) == Ids(rows) + {row.contactId}
  {
    var rs := rows + [row];
    forall k | k in Ids(rs) ensures k in Ids(rows) + {row.contactId} {
      var i :| 0 <= i < |rs| && rs[i].contactId == k;
      if i < |rows| { assert rows[i].contactId == k; }
    }
    forall k | k in Ids(rows) ensures k in Ids(rs) {
      var i :| 0 <= i < |rows| && rows[i].contactId == k;
      assert rs[i].contactId == k;
    }
    assert rs[|rows|].contactId == row.contactId;
  }

  lemma {:induction false} ValuesOfSnoc(rows: seq<Row>, row: Row, id: int)
    ensures ValuesOf(rows + [row], id)
            == ValuesOf(rows, id) + (if row.contactId == id then [OrEmpty(row.value)] else [])
  {
    assert (rows + [row])[..|rows|] == rows;
  }

  lemma {:induction false} ValuesOfAbsent(rows: seq<Row>, id: int)
    requires id !in Ids(rows)
    ensures ValuesOf(rows, id) == []
  {
    if |RowPositions(rows, id)| > 0 {
      var p := RowPositions(rows, id)[0];
      assert rows[p].contactId == id;
    }
  }

  lemma {:induction false} FirstNameSnoc(rows: seq<Row>, row: Row, id: int)
    requires id in Ids(rows + [row])
    ensures id in Ids(rows) ==> FirstName(rows + [row], id) == FirstName(rows, id)
    ensures id !in Ids(rows) ==> FirstName(rows + [row], id) == OrEmpty(row.displayName)
  {
    var rs := rows + [row];
    var p := FirstPosition(rs, id);
    if id in Ids(rows) {
      var q := FirstPosition(rows, id);
      assert rs[q].contactId == id;
    }
  }

  lemma {:induction false} AppendToRecord(target: TargetInfo, id: int, name: string, values: seq<string>, v: string)
    requires target != Basic
    ensures AppendValue(Record(target, id, name, values), target, v) == Record(target, id, name, values + [v])
  {
  }

  /** The number of values held, over all records, in the list field of `target`. */
  ghost function TotalValues(m: map<int, Contact>, target: TargetInfo): nat
    requires target != Basic
    decreases |m|
  {
    if |m.Keys| == 0 then 0
    else
      var k := PickKey(m);
      assert (m - {k}).Keys == m.Keys - {k};
      |ListOf(m[k], target)| + TotalValues(m - {k}, target)
  }

  ghost function PickKey(m: map<int, Contact>): (k: int)
    requires |m.Keys| > 0
    ensures k in m
  {
    Inhabited(m.Keys);
    var k :| k in m.Keys; k
  }

  /** The total does not depend on which key `TotalValues` takes first. */
  lemma {:induction false} TotalValuesRemove(m: map<int, Contact>, target: TargetInfo, k: int)
    requires target != Basic
    requires k in m
    ensures TotalValues(m, target) == |ListOf(m[k], target)| + TotalValues(m - {k}, target)
    decreases |m|
  {
    var first := PickKey(m);
    if first != k {
      assert (m - {first}).Keys == m.Keys - {first};
      assert (m - {k}).Keys == m.Keys - {k};
      TotalValuesRemove(m - {first}, target, k);
      TotalValuesRemove(m - {k}, target, first);
      assert m - {first} - {k} == m - {k} - {first};
    }
  }

  /** Storing record `c` under key `k` changes the total by the difference in
      list lengths. */
  lemma {:induction false} TotalValuesUpdate(m: map<int, Contact>, target: TargetInfo, k: int, c: Contact)
    requires target != Basic
    ensures TotalValues(m[k := c], target)
            == TotalValues(m, target) + |ListOf(c, target)| - (if k in m then |ListOf(m[k], target)| else 0)
  {
    TotalValuesRemove(m[k := c], target, k);
    UpdateThenRemove(m, k, c);
    if k in m {
      TotalValuesRemove(m, target, k);
    }
  }

  /** Map algebra for `TotalValuesUpdate`, split off to keep that proof small;
      it models nothing of its own. */
  lemma UpdateThenRemove(m: map<int, Contact>, k: int, c: Contact)
    ensures m[k := c] - {k} == m - {k}
    ensures k !in m ==> m - {k} == m
  {
  }

  /** The per-row handler of readPhonesInfo and readEmailsInfo: the first row
      of a contact creates its record, named after that row; a later row
      appends its value to the record in place. */
  function OnRow(contacts: map<int, Contact>, row: Row, target: TargetInfo): (r: map<int, Contact>)
    requires target != Basic
    ensures r.Keys == contacts.Keys + {row.contactId}
    ensures forall k :: k in contacts && k != row.contactId ==> r[k] == contacts[k]
  {
    var contactId := row.contactId;
    var displayName := OrEmpty(row.displayName);
    var value := OrEmpty(row.value);
    if contactId in contacts then
      contacts[contactId := AppendValue(contacts[contactId], target, value)]
    else
      contacts[contactId := Record(target, contactId, displayName, [value])]
  }

  /** The map the handler builds up over `rows`, starting from an empty map. */
  function Grouped(rows: seq<Row>, target: TargetInfo): map<int, Contact>
    requires target != Basic
  {
    if rows == [] then map[]
    else OnRow(Grouped(rows[..|rows| - 1], target), rows[|rows| - 1], target)
  }

  /** The grouping has one key per contact id of the rows. */
  lemma {:induction false} GroupedKeys(rows: seq<Row>, target: TargetInfo)
    requires target != Basic
    ensures Grouped(rows, target).Keys == Ids(rows)
  {
    if rows != [] {
      var init := rows[..|rows| - 1];
      assert rows == init + [rows[|rows| - 1]];
      GroupedKeys(init, target);
      IdsSnoc(init, rows[|rows| - 1]);
    }
  }

  /** The record of contact `id` is named after the id's first row and lists
      the values of all the id's rows, in row order. */
  lemma {:induction false} GroupedAt(rows: seq<Row>, target: TargetInfo, id: int)
    requires target != Basic
    requires id in Ids(rows)
    ensures id in Grouped(rows, target)
    ensures Grouped(rows, target)[id] == Record(target, id, FirstName(rows, id), ValuesOf(rows, id))
  {
    var init, row := rows[..|rows| - 1], rows[|rows| - 1];
    assert rows == init + [row];
    IdsSnoc(init, row);
    if id in Ids(init) {
      GroupedAt(init, target, id);
      GroupedAtKnown(init, row, target, id);
    } else {
      GroupedAtFirst(init, row, target);
    }
  }

  /** A further row of a known contact keeps its name and appends its value. */
  lemma {:induction false} GroupedAtKnown(init: seq<Row>, row: Row, target: TargetInfo, id: int)
    requires target != Basic
    requires id in Ids(init)
    requires id in Grouped(init, target)
    requires Grouped(init, target)[id] == Record(target, id, FirstName(init, id), ValuesOf(init, id))
    ensures id in Ids(init + [row])
    ensures id in Grouped(init + [row], target)
    ensures Grouped(init + [row], target)[id]
            == Record(target, id, FirstName(init + [row], id), ValuesOf(init + [row], id))
  {
    var rows := init + [row];
    assert rows[..|rows| - 1] == init;
    IdsSnoc(init, row);
    ValuesOfSnoc(init, row, id);
    FirstNameSnoc(init, row, id);
    if id == row.contactId {
      AppendToRecord(target, id, FirstName(init, id), ValuesOf(init, id), OrEmpty(row.value));
    }
  }

  /** The first row of a contact creates its record from that row alone. */
  lemma {:induction false} GroupedAtFirst(init: seq<Row>, row: Row, target: TargetInfo)
    requires target != Basic
    requires row.contactId !in Ids(init)
    ensures row.contactId in Ids(init + [row])
    ensures row.contactId in Grouped(init + [row], target)
    ensures Grouped(init + [row], target)[row.contactId]
            == Record(target, row.contactId, FirstName(init + [row], row.contactId), ValuesOf(init + [row], row.contactId))
  {
    var rows, id := init + [row], row.contactId;
    assert rows[..|rows| - 1] == init;
    GroupedKeys(init, target);
    IdsSnoc(init, row);
    ValuesOfSnoc(init, row, id);
    ValuesOfAbsent(init, id);
    FirstNameSnoc(init, row, id);
  }

  /** Every row contributes exactly one value, so the records together hold
      as many values as there are rows. */
  lemma {:induction false} GroupedTotal(rows: seq<Row>, target: TargetInfo)
    requires target != Basic
    ensures TotalValues(Grouped(rows, target), target) == |rows|
  {
    if rows != [] {
      var init, row := rows[..|rows| - 1], rows[|rows| - 1];
      var g := Grouped(init, target);
      GroupedTotal(init, target);
      var id := row.contactId;
      TotalValuesUpdate(g, target, id, Grouped(rows, target)[id]);
      assert Grouped(rows, target) == g[id := Grouped(rows, target)[id]];
    }
  }

  /** readTargetInfo with the handler of one target: one pass over the cursor
      rows, handling each row in turn. */
  method ReadTargetInfo(target: TargetInfo, rows: seq<Row>) returns (contacts: map<int, Contact>)
    requires target != Basic
    ensures contacts == Grouped(rows, target)
  {
    contacts := map[];
    var i := 0;
    while i < |rows|
      invariant 0 <= i <= |rows|
      invariant contacts == Grouped(rows[..i], target)
    {
      assert rows[..i + 1][..i] == rows[..i];
      contacts := OnRow(contacts, rows[i], target);
      i := i + 1;
    }
    assert rows[..i] == rows;
  }

  /** The facts readPhonesInfo and readEmailsInfo state about a grouping. */
  lemma GroupedFacts(rows: seq<Row>, target: TargetInfo)
    requires target != Basic
    ensures Grouped(rows, target).Keys == Ids(rows)
    ensures forall id :: id in Ids(rows) ==>
              Grouped(rows, target)[id] == Record(target, id, FirstName(rows, id), ValuesOf(rows, id))
    ensures TotalValues(Grouped(rows, target), target) == |rows|
  {
    GroupedKeys(rows, target);
    forall id | id in Ids(rows)
      ensures Grouped(rows, target)[id] == Record(target, id, FirstName(rows, id), ValuesOf(rows, id))
    {
      GroupedAt(rows, target, id);
    }
    GroupedTotal(rows, target);
  }

  /** readPhonesInfo: one record per contact id of the phone rows; its display
      name is that of the id's first row, its phones are the numbers of the
      id's rows in row order, its e-mails are empty; all records together hold
      one number per row. */
  method ReadPhonesInfo(rows: seq<Row>) returns (contacts: map<int, Contact>)
    ensures contacts.Keys == Ids(rows)
    ensures forall id :: id in contacts ==>
              contacts[id] == Contact(IdString(id), FirstName(rows, id), ValuesOf(rows, id), [])
    ensures TotalValues(contacts, Phones) == |rows|
  {
    contacts := ReadTargetInfo(Phones, rows);
    GroupedFacts(rows, Phones);
  }

  /** readEmailsInfo: the same grouping over the e-mail rows, filling
      e-mails and leaving phones empty. */
  method ReadEmailsInfo(rows: seq<Row>) returns (contacts: map<int, Contact>)
    ensures contacts.Keys == Ids(rows)
    ensures forall id :: id in contacts ==>
              contacts[id] == Contact(IdString(id), FirstName(rows, id), [], ValuesOf(rows, id))
    ensures TotalValues(contacts, Emails) == |rows|
  {
    contacts := ReadTargetInfo(Emails, rows);
    GroupedFacts(rows, Emails);
  }
}
