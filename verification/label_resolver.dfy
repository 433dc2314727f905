/** Resolution of user-supplied labels to current labels, with legacy labels
    upgraded through the old-to-new label table, and the classification of a
    label as a representation, a Galois orbit, or neither. The table is an
    input sequence of rows; a database lookup returns the first matching row. */
module LabelResolver {
  import opened Wrappers
  import opened Strings
  import opened LabelGrammar

  /** One row of the legacy label table. An absent new label is "". */
  datatype LegacyRow = LegacyRow(oldLabel: string, newLabel: string)

  type LegacyTable = seq<LegacyRow>

  /** What a parse call does: return a label, or raise `ValueError`. */
  datatype Resolution = Resolved(text: string) | Raises

  /** The three readings of a label. */
  datatype Reading = Rep(text: string) | Orbit(text: string) | Malformed(text: string)

  /** The row mentions `input` as its old or its new label. */
  predicate Mentions(row: LegacyRow, input: string) {
    row.oldLabel == input || row.newLabel == input
  }

  /** The table lookup keyed by the old label. */
  function Lookup(table: LegacyTable, oldLabel: string): (r: Option<LegacyRow>)
    ensures r.Some? ==> r.value in table && r.value.oldLabel == oldLabel
    ensures r.None? <==> forall row :: row in table ==> row.oldLabel != oldLabel
  {
    if |table| == 0 then None
    else if table[0].oldLabel == oldLabel then Some(table[0])
    else Lookup(table[1..], oldLabel)
  }

  /** The label has a table row whose new label is non-empty. */
  predicate Upgradable(table: LegacyTable, input: string) {
    var e := Lookup(table, input);
    e.Some? && e.value.newLabel != ""
  }

  /** The new label a legacy label upgrades to. */
  function Upgrade(table: LegacyTable, input: string): (r: string)
    requires Upgradable(table, input)
    ensures r != "" && LegacyRow(input, r) in table
  {
    Lookup(table, input).value.newLabel
  }

  /** `parse_artin_label`. A current label comes back as it is; a legacy label
      is upgraded when its row has a new label. Otherwise the call raises,
      except that `safe` turns the two caught failures (no row for a legacy
      input, and any input matching neither grammar) into "". A row whose new
      label is empty leaves the `try` normally and raises even when `safe`. */
  function ParseArtinLabel(table: LegacyTable, input: string, safe: bool): (r: Resolution)
    ensures IsRepLabel(input) ==> r == Resolved(input)
    ensures IsLegacyRepLabel(input) && Upgradable(table, input) ==> r == Resolved(Upgrade(table, input))
    ensures r.Resolved? ==>
              || (r.text == input && IsRepLabel(input))
              || (IsLegacyRepLabel(input) && r.text != "" && LegacyRow(input, r.text) in table)
              || (safe && r.text == "")
    ensures !safe ==> (r.Raises? <==> !IsRepLabel(input) && !(IsLegacyRepLabel(input) && Upgradable(table, input)))
    ensures safe ==> (r.Raises? <==> IsLegacyRepLabel(input) && Lookup(table, input).Some? && !Upgradable(table, input))
  {
    GrammarsDisjoint(input);
    if IsRepLabel(input) then Resolved(input)
    else if IsLegacyRepLabel(input) then
      match Lookup(table, input)
      case None => if safe then Resolved("") else Raises
      case Some(row) => if row.newLabel != "" then Resolved(row.newLabel) else Raises
    else if safe then Resolved("")
    else Raises
  }

  /** `parse_artin_orbit_label`: the same with the orbit grammars, except that
      an input matching neither grammar raises even when `safe`. */
  function ParseArtinOrbitLabel(table: LegacyTable, input: string, safe: bool): (r: Resolution)
    ensures IsOrbitLabel(input) ==> r == Resolved(input)
    ensures IsLegacyOrbitLabel(input) && Upgradable(table, input) ==> r == Resolved(Upgrade(table, input))
    ensures r.Resolved? ==>
              || (r.text == input && IsOrbitLabel(input))
              || (IsLegacyOrbitLabel(input) && r.text != "" && LegacyRow(input, r.text) in table)
              || (safe && r.text == "" && IsLegacyOrbitLabel(input))
    ensures !safe ==> (r.Raises? <==> !IsOrbitLabel(input) && !(IsLegacyOrbitLabel(input) && Upgradable(table, input)))
    ensures safe ==> (r.Raises? <==> !IsOrbitLabel(input)
                                     && !(IsLegacyOrbitLabel(input) && (Lookup(table, input).None? || Upgradable(table, input))))
  {
    GrammarsDisjoint(input);
    if IsOrbitLabel(input) then Resolved(input)
    else if IsLegacyOrbitLabel(input) then
      match Lookup(table, input)
      case None => if safe then Resolved("") else Raises
      case Some(row) => if row.newLabel != "" then Resolved(row.newLabel) else Raises
    else Raises
  }

  /** `parse_any`: the representation reading first, then the orbit reading,
      and otherwise the input itself marked malformed. */
  function ParseAny(table: LegacyTable, input: string): (r: Reading)
    ensures IsRepLabel(input) ==> r == Rep(input)
    ensures IsOrbitLabel(input) ==> r == Orbit(input)
    ensures IsLegacyRepLabel(input) && Upgradable(table, input) ==> r == Rep(Upgrade(table, input))
    ensures IsLegacyOrbitLabel(input) && Upgradable(table, input) ==> r == Orbit(Upgrade(table, input))
    ensures r.Malformed? <==> !IsRepLabel(input) && !IsOrbitLabel(input)
                              && !((IsLegacyRepLabel(input) || IsLegacyOrbitLabel(input)) && Upgradable(table, input))
    ensures r.Malformed? ==> r.text == input
  {
    GrammarsDisjoint(input);
    match ParseArtinLabel(table, input, false)
    case Resolved(rep) => Rep(rep)
    case Raises =>
      match ParseArtinOrbitLabel(table, input, false)
      case Resolved(orbit) => Orbit(orbit)
      case Raises => Malformed(input)
  }

  /** The first row mentioning the label. */
  function FirstMentioning(table: LegacyTable, input: string): (r: Option<LegacyRow>)
    ensures r.Some? ==> r.value in table && Mentions(r.value, input)
    ensures r.None? <==> forall row :: row in table ==> !Mentions(row, input)
  {
    if |table| == 0 then None
    else if Mentions(table[0], input) then Some(table[0])
    else
      FirstMentioning(table[1..], input)
  }

  /** `both_labels`: the old and the new label of the row mentioning the
      label, or just the label when no row does. */
  function BothLabels(table: LegacyTable, input: string): (r: seq<string>)
    ensures input in r
    ensures (forall row :: row in table ==> !Mentions(row, input)) ==> r == [input]
    ensures (exists row :: row in table && Mentions(row, input))
            ==> exists row :: row in table && Mentions(row, input) && r == [row.oldLabel, row.newLabel]
  {
    match FirstMentioning(table, input)
    case None => [input]
    case Some(row) => [row.oldLabel, row.newLabel]
  }

  /** Every row upgrades a legacy label to a current label of the same kind. */
  ghost predicate WellFormedTable(table: LegacyTable) {
    forall row :: row in table ==>
      (IsLegacyRepLabel(row.oldLabel) && IsRepLabel(row.newLabel))
      || (IsLegacyOrbitLabel(row.oldLabel) && IsOrbitLabel(row.newLabel))
  }

  /** Each old label and each new label occurs in one row only. */
  ghost predicate OneToOne(table: LegacyTable) {
    forall i, j :: 0 <= i < |table| && 0 <= j < |table| && i != j ==>
      table[i].oldLabel != table[j].oldLabel && table[i].newLabel != table[j].newLabel
  }

  /** With a well-formed table, what `parse_any` reports is a current label
      of the kind it reports. */
  lemma ParseAnyGivesCurrentLabels(table: LegacyTable, input: string)
    requires WellFormedTable(table)
    ensures ParseAny(table, input).Rep? ==> IsRepLabel(ParseAny(table, input).text)
    ensures ParseAny(table, input).Orbit? ==> IsOrbitLabel(ParseAny(table, input).text)
  {
    GrammarsDisjoint(input);
    if (IsLegacyRepLabel(input) || IsLegacyOrbitLabel(input)) && Upgradable(table, input) {
      var row := Lookup(table, input).value;
      assert row in table;
      GrammarsDisjoint(row.oldLabel);
    }
  }

  /** With a well-formed table, `parse_any` is idempotent: parsing the label it
      reports gives the same reading again. */
  lemma ParseAnyIdempotent(table: LegacyTable, input: string)
    requires WellFormedTable(table)
    ensures ParseAny(table, ParseAny(table, input).text) == ParseAny(table, input)
  {
    ParseAnyGivesCurrentLabels(table, input);
  }

  /** A legacy label in a well-formed table reads exactly like the label it is
      upgraded to. */
  lemma LegacyReadsAsUpgrade(table: LegacyTable, input: string)
    requires WellFormedTable(table)
    requires Upgradable(table, input)
    ensures ParseAny(table, input) == ParseAny(table, Upgrade(table, input))
    ensures !ParseAny(table, input).Malformed?
  {
    var row := Lookup(table, input).value;
    assert row in table;
    GrammarsDisjoint(input);
  }

  /** A legacy label without a table row is malformed for `parse_any`. */
  lemma UnknownLegacyIsMalformed(table: LegacyTable, input: string)
    requires IsLegacyRepLabel(input) || IsLegacyOrbitLabel(input)
    requires Lookup(table, input).None?
    ensures ParseAny(table, input) == Malformed(input)
  {
    GrammarsDisjoint(input);
  }

  /** The `safe` flag treats non-matching input differently in the two parse
      functions: "" for the representation parse, `ValueError` for the orbit
      parse. */
  lemma SafeModeAsymmetry(table: LegacyTable, input: string)
    requires FormOf(input) == NoForm
    ensures ParseArtinLabel(table, input, true) == Resolved("")
    ensures ParseArtinOrbitLabel(table, input, true) == Raises
  {
  }

  /** In a well-formed one-to-one table, the old and the new label of a row
      have the same aliases: both labels of that row. */
  lemma BothLabelsOfRow(table: LegacyTable, k: nat)
    requires WellFormedTable(table) && OneToOne(table)
    requires k < |table|
    ensures BothLabels(table, table[k].oldLabel) == [table[k].oldLabel, table[k].newLabel]
    ensures BothLabels(table, table[k].newLabel) == [table[k].oldLabel, table[k].newLabel]
  {
    var row := table[k];
    assert row in table;
    FirstRowIsRow(table, k, row.oldLabel);
    FirstRowIsRow(table, k, row.newLabel);
  }

  /** The row a label is found in is the only row mentioning it. */
  lemma FirstRowIsRow(table: LegacyTable, k: nat, input: string)
    requires WellFormedTable(table) && OneToOne(table)
    requires k < |table| && Mentions(table[k], input)
    ensures FirstMentioning(table, input) == Some(table[k])
  {
    var r := FirstMentioning(table, input);
    var i :| 0 <= i < |table| && table[i] == r.value;
    if i != k {
      assert table[i] in table && table[k] in table;
      GrammarsDisjoint(input);
      assert false;
    }
  }

  /** Whatever the table holds, a representation label reads as itself. */
  lemma RepReadingExample(table: LegacyTable)
    ensures ParseAny(table, "4.5648.6t13.b.a") == Rep("4.5648.6t13.b.a")
  {
    RepLabelExample();
  }

  /** Whatever the table holds, an orbit label reads as itself. */
  lemma OrbitReadingExample(table: LegacyTable)
    ensures ParseAny(table, "4.5648.6t13.b") == Orbit("4.5648.6t13.b")
  {
    OrbitLabelExample();
  }

  /** Whatever the table holds, a string matching no grammar is malformed. */
  lemma MalformedReadingExample(table: LegacyTable)
    ensures ParseAny(table, "garbage!!") == Malformed("garbage!!")
  {
    SplitWithoutSeparator("garbage!!", '.');
    assert |Split("garbage!!", '.')| == 1;
  }
}
