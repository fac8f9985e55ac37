/** Sequence synchronisation at cutover (SyncSequences in internal/agent/migration.go), down
    to the text of the statement it sends and what the destination reads in that text. */
module SequenceSync {
  import opened Common

  datatype Name = Name(schema: string, sequenceName: string)

  // ----- Text -------------------------------------------------------------------------

  /** strings.ReplaceAll(s, q, qq). */
  function Doubled(s: string, q: char): string {
    if s == "" then ""
    else (if s[0] == q then [q, q] else [s[0]]) + Doubled(s[1..], q)
  }

  /** "schema"."name" with embedded double quotes doubled. */
  function QualifiedName(n: Name): string {
    "\"" + Doubled(n.schema, '"') + "\".\"" + Doubled(n.sequenceName, '"') + "\""
  }

  /** The literal in the setval call, from after its opening apostrophe: the qualified name is
      put between apostrophes as it is. */
  function Literal(n: Name): string {
    QualifiedName(n) + "'"
  }

  // ----- Reading the text back ---------------------------------------------------------

  datatype Quoted = Quoted(content: string, rest: string)

  function Prepend(c: char, r: Option<Quoted>): Option<Quoted> {
    match r
    case None => None
    case Some(Quoted(content, rest)) => Some(Quoted([c] + content, rest))
  }

  /** SQL's reading of quoted text, from just after the opening quote: a doubled quote stands
      for one, a single one closes. The same rule serves literals and identifiers. */
  function ReadQuoted(q: char, text: string): Option<Quoted> {
    if text == "" then None
    else if text[0] != q then Prepend(text[0], ReadQuoted(q, text[1..]))
    else if |text| > 1 && text[1] == q then Prepend(q, ReadQuoted(q, text[2..]))
    else Some(Quoted("", text[1..]))
  }

  /** Resolving the text of a regclass literal made of two quoted identifiers. */
  function ReadName(text: string): Option<Name> {
    if text == "" || text[0] != '"' then None
    else
      match ReadQuoted('"', text[1..])
      case None => None
      case Some(Quoted(schema, rest)) =>
        if |rest| < 2 || rest[..2] != ".\"" then None
        else
          match ReadQuoted('"', rest[2..])
          case None => None
          case Some(Quoted(name, end)) => if end == "" then Some(Name(schema, name)) else None
  }

  /** The sequence that the destination finds in the literal; None if the text is not one
      literal or does not resolve to a name. A literal that an apostrophe in the name closes
      early counts as an error here, although a server would go on to read what follows it as
      further text of the statement. */
  function ReadLiteral(text: string): Option<Name> {
    match ReadQuoted('\'', text)
    case None => None
    case Some(Quoted(name, rest)) => if rest == "" then ReadName(name) else None
  }

  // ----- Quoting is invertible ---------------------------------------------------------

  lemma ReadOrdinary(q: char, c: char, tail: string)
    requires c != q
    ensures ReadQuoted(q, [c] + tail) == Prepend(c, ReadQuoted(q, tail))
  {
    assert ([c] + tail)[1..] == tail;
  }

  lemma ReadPair(q: char, tail: string)
    ensures ReadQuoted(q, [q, q] + tail) == Prepend(q, ReadQuoted(q, tail))
  {
    assert ([q, q] + tail)[2..] == tail;
  }

  lemma ReadClose(q: char, rest: string)
    requires rest == "" || rest[0] != q
    ensures ReadQuoted(q, [q] + rest) == Some(Quoted("", rest))
  {
    assert ([q] + rest)[1..] == rest;
  }

  /** Doubling the quotes is exactly what reading undoes. */
  lemma {:induction false} ReadUndoesDoubling(s: string, q: char, rest: string)
    requires rest == "" || rest[0] != q
    ensures ReadQuoted(q, Doubled(s, q) + [q] + rest) == Some(Quoted(s, rest))
  {
    if s == "" {
      ReadClose(q, rest);
      assert "" + [q] + rest == [q] + rest;
    } else {
      var tail := Doubled(s[1..], q) + [q] + rest;
      ReadUndoesDoubling(s[1..], q, rest);
      assert s == [s[0]] + s[1..];
      if s[0] == q {
        ReadPair(q, tail);
        assert [q, q] + Doubled(s[1..], q) + [q] + rest == [q, q] + tail;
      } else {
        ReadOrdinary(q, s[0], tail);
        assert [s[0]] + Doubled(s[1..], q) + [q] + rest == [s[0]] + tail;
      }
    }
  }

  /** Conversely, whatever reads as a content is that content with its quotes doubled. */
  lemma {:induction false} ReadMeansDoubled(q: char, text: string)
    requires ReadQuoted(q, text).Some?
    ensures var r := ReadQuoted(q, text).value;
            text == Doubled(r.content, q) + [q] + r.rest
  {
    var r := ReadQuoted(q, text).value;
    if text[0] != q {
      ReadMeansDoubled(q, text[1..]);
      assert r.content[1..] == ReadQuoted(q, text[1..]).value.content;
      assert text == [text[0]] + text[1..];
    } else if |text| > 1 && text[1] == q {
      ReadMeansDoubled(q, text[2..]);
      assert r.content[1..] == ReadQuoted(q, text[2..]).value.content;
      assert text == [q, q] + text[2..];
    } else {
      assert text == [q] + text[1..];
    }
  }

  lemma {:induction false} DoubledLength(s: string, q: char)
    ensures |Doubled(s, q)| >= |s|
    ensures |Doubled(s, q)| == |s| <==> q !in s
    ensures q !in s ==> Doubled(s, q) == s
  {
    if s != "" {
      DoubledLength(s[1..], q);
      assert s == [s[0]] + s[1..];
    }
  }

  lemma {:induction false} DoubledKeepsOthers(s: string, q: char, c: char)
    requires c != q
    ensures c in Doubled(s, q) <==> c in s
  {
    if s != "" {
      DoubledKeepsOthers(s[1..], q, c);
      assert s == [s[0]] + s[1..];
    }
  }

  /** The qualified name as it is read: two quoted parts with a dot between. */
  lemma QualifiedNameParts(n: Name)
    ensures QualifiedName(n)
            == ['"'] + (Doubled(n.schema, '"') + ['"'] + (".\"" + (Doubled(n.sequenceName, '"') + ['"'] + "")))
  {
  }

  /** The qualified name determines schema and name, for every pair of strings. */
  lemma QualifiedNameReadsBack(n: Name)
    ensures ReadName(QualifiedName(n)) == Some(n)
  {
    var text := QualifiedName(n);
    var second := Doubled(n.sequenceName, '"') + ['"'] + "";
    var rest := ".\"" + second;
    QualifiedNameParts(n);
    assert text[1..] == Doubled(n.schema, '"') + ['"'] + rest;
    ReadUndoesDoubling(n.schema, '"', rest);
    assert rest[2..] == second;
    ReadUndoesDoubling(n.sequenceName, '"', "");
  }

  lemma QualifiedNameInjective(a: Name, b: Name)
    requires QualifiedName(a) == QualifiedName(b)
    ensures a == b
  {
    QualifiedNameReadsBack(a);
    QualifiedNameReadsBack(b);
  }

  // ----- The literal reads back, or not -----------------------------------------------

  /** A name that survives inside a single-quoted literal written without escaping. */
  predicate LiteralSafe(n: Name) {
    '\'' !in n.schema && '\'' !in n.sequenceName
  }

  lemma QualifiedNameApostrophes(n: Name)
    ensures '\'' in QualifiedName(n) <==> !LiteralSafe(n)
  {
    DoubledKeepsOthers(n.schema, '"', '\'');
    DoubledKeepsOthers(n.sequenceName, '"', '\'');
    var a, b := Doubled(n.schema, '"'), Doubled(n.sequenceName, '"');
    assert forall c :: c in QualifiedName(n) <==> c == '"' || c in a || c == '.' || c in b;
  }

  /** A text that resolves to a name is that name's qualified form, quotes doubled. */
  lemma ReadNameMeansQualified(text: string)
    requires ReadName(text).Some?
    ensures text == QualifiedName(ReadName(text).value)
  {
    var first := ReadQuoted('"', text[1..]).value;
    var second := ReadQuoted('"', first.rest[2..]).value;
    ReadMeansDoubled('"', text[1..]);
    ReadMeansDoubled('"', first.rest[2..]);
    QualifiedNameParts(Name(first.content, second.content));
    assert first.rest == ".\"" + first.rest[2..];
    assert text == ['"'] + text[1..];
  }

  /** Encoding a name, putting it in the statement and reading the statement back is the
      identity exactly for names without an apostrophe: the code doubles double quotes for the
      identifier but not apostrophes for the literal around it. */
  lemma LiteralReadsBack(n: Name)
    ensures ReadLiteral(Literal(n)) == Some(n) <==> LiteralSafe(n)
  {
    var f := QualifiedName(n);
    QualifiedNameApostrophes(n);
    QualifiedNameReadsBack(n);
    DoubledLength(f, '\'');
    if LiteralSafe(n) {
      ReadUndoesDoubling(f, '\'', "");
      assert f + ['\''] + "" == Literal(n);
    } else if ReadLiteral(Literal(n)) == Some(n) {
      var r := ReadQuoted('\'', Literal(n)).value;
      ReadMeansDoubled('\'', Literal(n));
      ReadNameMeansQualified(r.content);
    }
  }

  lemma {:induction false} DoubledConcat(a: string, b: string, q: char)
    ensures Doubled(a + b, q) == Doubled(a, q) + Doubled(b, q)
  {
    if a == "" {
      assert a + b == b;
    } else {
      assert (a + b)[1..] == a[1..] + b;
      DoubledConcat(a[1..], b, q);
    }
  }

  /** The two kinds of quote are doubled independently. */
  lemma {:induction false} DoublingsCommute(s: string, q: char, r: char)
    requires q != r
    ensures Doubled(Doubled(s, q), r) == Doubled(Doubled(s, r), q)
  {
    if s != "" {
      DoublingsCommute(s[1..], q, r);
      DoubledConcat(if s[0] == q then [q, q] else [s[0]], Doubled(s[1..], q), r);
      DoubledConcat(if s[0] == r then [r, r] else [s[0]], Doubled(s[1..], r), q);
      DoubledOneChar(s[0], q, r);
    }
  }

  lemma SingleDoubled(c: char, q: char)
    ensures Doubled([c], q) == if c == q then [q, q] else [c]
  {
    assert [c][1..] == "";
  }

  lemma DoubledOneChar(c: char, q: char, r: char)
    requires q != r
    ensures Doubled(if c == q then [q, q] else [c], r) == Doubled(Doubled([c], q), r)
    ensures Doubled(if c == q then [q, q] else [c], r) == Doubled(if c == r then [r, r] else [c], q)
  {
    assert [q, q][1..] == [q] && [r, r][1..] == [r];
    SingleDoubled(c, q);
    SingleDoubled(c, r);
    SingleDoubled(q, r);
    SingleDoubled(r, q);
    assert Doubled([q, q], r) == [q] + Doubled([q], r);
    assert Doubled([r, r], q) == [r] + Doubled([r], q);
  }

  function ApostrophesDoubled(n: Name): Name {
    Name(Doubled(n.schema, '\''), Doubled(n.sequenceName, '\''))
  }

  lemma QualifiedNameOfDoubled(n: Name)
    ensures QualifiedName(ApostrophesDoubled(n)) == Doubled(QualifiedName(n), '\'')
  {
    var q := '\'';
    var a, b := Doubled(n.schema, '"'), Doubled(n.sequenceName, '"');
    DoublingsCommute(n.schema, '"', q);
    DoublingsCommute(n.sequenceName, '"', q);
    DoubledConcat("\"" + a + "\".\"" + b, "\"", q);
    DoubledConcat("\"" + a + "\".\"", b, q);
    DoubledConcat("\"" + a, "\".\"", q);
    DoubledConcat("\"", a, q);
    DoubledLength("\"", q);
    DoubledLength("\".\"", q);
  }

  /** What goes wrong otherwise: a name whose apostrophes all come in pairs is read as the
      name with half of them, so its value lands on a different sequence. */
  lemma PairedApostrophesHitAnother(n: Name)
    ensures ReadLiteral(Literal(ApostrophesDoubled(n))) == Some(n)
    ensures ApostrophesDoubled(n) != n <==> !LiteralSafe(n)
  {
    QualifiedNameOfDoubled(n);
    ReadUndoesDoubling(QualifiedName(n), '\'', "");
    assert Doubled(QualifiedName(n), '\'') + ['\''] + "" == Literal(ApostrophesDoubled(n));
    QualifiedNameReadsBack(n);
    DoubledLength(n.schema, '\'');
    DoubledLength(n.sequenceName, '\'');
  }

  /** In general: what is read from the literal of one name is another exactly if the first is
      the second with its apostrophes doubled. */
  lemma LiteralReadsAs(m: Name, n: Name)
    ensures ReadLiteral(Literal(m)) == Some(n) <==> m == ApostrophesDoubled(n)
  {
    PairedApostrophesHitAnother(n);
    if ReadLiteral(Literal(m)) == Some(n) {
      var r := ReadQuoted('\'', Literal(m)).value;
      ReadMeansDoubled('\'', Literal(m));
      ReadNameMeansQualified(r.content);
      QualifiedNameOfDoubled(n);
      assert Literal(m) == QualifiedName(ApostrophesDoubled(n)) + ['\''] + "";
      assert QualifiedName(m) == Literal(m)[..|Literal(m)| - 1];
      QualifiedNameInjective(m, ApostrophesDoubled(n));
    }
  }

  // ----- The loop ------------------------------------------------------------------------

  /** Go's 64-bit addition. */
  const TWO_63 := 0x8000_0000_0000_0000
  const TWO_64 := 0x1_0000_0000_0000_0000

  predicate IsInt64(x: int) {
    -TWO_63 <= x < TWO_63
  }

  function Wrap64(x: int): (r: int)
    ensures IsInt64(r)
  {
    (x + TWO_63) % TWO_64 - TWO_63
  }

  /** The padded value is the intended one exactly when the sum fits in 64 bits; past either
      end it comes out with the other sign. */
  lemma PaddingExact(lastValue: int, buffer: int)
    requires IsInt64(lastValue) && IsInt64(buffer)
    ensures Wrap64(lastValue + buffer) == lastValue + buffer <==> IsInt64(lastValue + buffer)
    ensures lastValue + buffer >= TWO_63 ==> Wrap64(lastValue + buffer) == lastValue + buffer - TWO_64 < 0
    ensures lastValue + buffer < -TWO_63 ==> Wrap64(lastValue + buffer) == lastValue + buffer + TWO_64 >= 0
  {
  }

  /** One row of the source's sequence list, with the destination's attitude to the setval it
      leads to; or a row that cannot be scanned, which ends the loop with an error. */
  datatype Row = Row(name: Name, lastValue: int, accepted: bool) | Unreadable

  type Sequences = map<Name, int>

  /** The destination after one setval: the sequence that the literal denotes is set if it
      exists and the server accepts the value. */
  function Executed(dest: Sequences, literal: string, value: int, accepted: bool): Sequences {
    match ReadLiteral(literal)
    case Some(name) => if accepted && name in dest then dest[name := value] else dest
    case None => dest
  }

  /** The destination after the statements for all these rows, in order. */
  function Synced(dest: Sequences, rows: seq<Row>, buffer: int): Sequences {
    if rows == [] then dest
    else
      var n := |rows| - 1;
      var before := Synced(dest, rows[..n], buffer);
      match rows[n]
      case Unreadable => before
      case Row(name, lastValue, accepted) =>
        Executed(before, Literal(name), Wrap64(lastValue + buffer), accepted)
  }

  /** The rows the loop gets to: those before the first that cannot be scanned. */
  function Readable(rows: seq<Row>): seq<Row> {
    if rows == [] || rows[0].Unreadable? then [] else [rows[0]] + Readable(rows[1..])
  }

  lemma {:induction false} ReadablePrefix(rows: seq<Row>, i: nat)
    requires i <= |rows| && (i < |rows| ==> rows[i].Unreadable?)
    requires forall j :: 0 <= j < i ==> rows[j].Row?
    ensures Readable(rows) == rows[..i]
    ensures Readable(rows) == rows <==> i == |rows|
  {
    if i > 0 {
      ReadablePrefix(rows[1..], i - 1);
      assert rows[..i] == [rows[0]] + rows[1..][..i - 1];
    }
  }

  /** The setval of the row lands on this sequence: the row's own name is this one with its
      apostrophes doubled. */
  predicate Hits(row: Row, dest: Sequences, name: Name) {
    row.Row? && row.accepted && name in dest && row.name == ApostrophesDoubled(name)
  }

  /** Row i is the last one to hit the sequence. */
  ghost predicate LastHit(rows: seq<Row>, dest: Sequences, name: Name, i: nat) {
    && i < |rows|
    && Hits(rows[i], dest, name)
    && forall j :: i < j < |rows| ==> !Hits(rows[j], dest, name)
  }

  lemma {:induction false} SyncedKeys(dest: Sequences, rows: seq<Row>, buffer: int)
    ensures Synced(dest, rows, buffer).Keys == dest.Keys
  {
    if rows != [] {
      SyncedKeys(dest, rows[..|rows| - 1], buffer);
    }
  }

  /** A sequence ends with the padded value of the last row that hits it. */
  lemma {:induction false} SyncedHoldsLastHit(dest: Sequences, rows: seq<Row>, buffer: int, name: Name, i: nat)
    requires LastHit(rows, dest, name, i)
    ensures name in Synced(dest, rows, buffer)
    ensures Synced(dest, rows, buffer)[name] == Wrap64(rows[i].lastValue + buffer)
  {
    var n := |rows| - 1;
    SyncedKeys(dest, rows[..n], buffer);
    if rows[n].Row? {
      LiteralReadsAs(rows[n].name, name);
    }
    if i < n {
      SyncedHoldsLastHit(dest, rows[..n], buffer, name, i);
      assert !Hits(rows[n], dest, name);
    }
  }

  /** A sequence whose name has no apostrophe ends with the padded value of its row, if that
      was accepted and no later row, under whatever name, hits the same sequence. */
  lemma SyncedHoldsPaddedValue(dest: Sequences, rows: seq<Row>, buffer: int, i: nat)
    requires i < |rows| && rows[i].Row? && rows[i].accepted && rows[i].name in dest
    requires LiteralSafe(rows[i].name)
    requires forall j :: i < j < |rows| ==> !Hits(rows[j], dest, rows[i].name)
    ensures rows[i].name in Synced(dest, rows, buffer)
    ensures Synced(dest, rows, buffer)[rows[i].name] == Wrap64(rows[i].lastValue + buffer)
  {
    PairedApostrophesHitAnother(rows[i].name);
    SyncedHoldsLastHit(dest, rows, buffer, rows[i].name, i);
  }

  /** Every sequence that no row hits is left alone, and none appears or vanishes. */
  lemma {:induction false} SyncedLeavesOthers(dest: Sequences, rows: seq<Row>, buffer: int, other: Name)
    requires other in dest
    requires forall i :: 0 <= i < |rows| ==> !Hits(rows[i], dest, other)
    ensures other in Synced(dest, rows, buffer) && Synced(dest, rows, buffer)[other] == dest[other]
    ensures Synced(dest, rows, buffer).Keys == dest.Keys
  {
    if rows != [] {
      var n := |rows| - 1;
      SyncedLeavesOthers(dest, rows[..n], buffer, other);
      assert !Hits(rows[n], dest, other);
      if rows[n].Row? {
        LiteralReadsAs(rows[n].name, other);
      }
      SyncedKeys(dest, rows, buffer);
    }
  }

  /** The row's statement would be accepted and its sequence exists. */
  predicate Writes(row: Row, dest: Sequences) {
    row.Row? && row.accepted && row.name in dest
  }

  /** What the loop is meant to do, without any text: assign each accepted row's padded value. */
  function Assigned(dest: Sequences, rows: seq<Row>, buffer: int): Sequences {
    if rows == [] then dest
    else
      var n := |rows| - 1;
      var before := Assigned(dest, rows[..n], buffer);
      if Writes(rows[n], before) then before[rows[n].name := Wrap64(rows[n].lastValue + buffer)] else before
  }

  predicate AcceptedAreSafe(rows: seq<Row>) {
    forall i :: 0 <= i < |rows| && rows[i].Row? && rows[i].accepted ==> LiteralSafe(rows[i].name)
  }

  /** For names without apostrophes, sending text is as good as assigning. */
  lemma {:induction false} SyncedIsAssigned(dest: Sequences, rows: seq<Row>, buffer: int)
    requires AcceptedAreSafe(rows)
    ensures Synced(dest, rows, buffer) == Assigned(dest, rows, buffer)
  {
    if rows != [] {
      var n := |rows| - 1;
      SyncedIsAssigned(dest, rows[..n], buffer);
      if rows[n].Row? && rows[n].accepted {
        LiteralReadsBack(rows[n].name);
      }
    }
  }

  lemma SyncedExtends(dest: Sequences, rows: seq<Row>, buffer: int, i: nat)
    requires i < |rows| && rows[i].Row?
    ensures Synced(dest, rows[..i + 1], buffer)
            == Executed(Synced(dest, rows[..i], buffer),
                        Literal(rows[i].name), Wrap64(rows[i].lastValue + buffer), rows[i].accepted)
  {
    assert rows[..i + 1][..i] == rows[..i];
  }

  class Destination {
    var sequences: Sequences

    constructor (initial: Sequences)
      ensures sequences == initial
    {
      sequences := initial;
    }

    method ExecSetval(literal: string, value: int, accepted: bool) returns (ok: bool)
      modifies this
      ensures sequences == Executed(old(sequences), literal, value, accepted)
      ensures ok <==> ReadLiteral(literal).Some? && accepted && ReadLiteral(literal).value in old(sequences)
    {
      var target := ReadLiteral(literal);
      if target.Some? && accepted && target.value in sequences {
        sequences := sequences[target.value := value];
        return true;
      }
      return false;
    }

    /** The body of the loop: one statement, whose failure is only logged. */
    method SyncRow(rows: seq<Row>, i: nat, buffer: int, ghost initial: Sequences)
      requires i < |rows| && rows[i].Row?
      requires sequences == Synced(initial, rows[..i], buffer)
      modifies this
      ensures sequences == Synced(initial, rows[..i + 1], buffer)
    {
      SyncedExtends(initial, rows, buffer, i);
      var newVal := Wrap64(rows[i].lastValue + buffer);
      var _ := ExecSetval(Literal(rows[i].name), newVal, rows[i].accepted);
    }

    /** SyncSequences after both connections are open. A setval that fails is only a warning;
        a row that cannot be scanned ends the loop with an error. */
    method SyncSequences(rows: seq<Row>, buffer: int) returns (ok: bool)
      modifies this
      ensures sequences == Synced(old(sequences), Readable(rows), buffer)
      ensures ok <==> Readable(rows) == rows
    {
      for i := 0 to |rows|
        invariant forall j :: 0 <= j < i ==> rows[j].Row?
        invariant sequences == Synced(old(sequences), rows[..i], buffer)
      {
        if rows[i].Unreadable? {
          ReadablePrefix(rows, i);
          return false;
        }
        SyncRow(rows, i, buffer, old(sequences));
      }
      ReadablePrefix(rows, |rows|);
      return true;
    }
  }
}
