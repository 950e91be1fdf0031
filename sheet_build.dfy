/**
 * buildLocalesFromSheet (src/index.ts:68-110) and normalizeHeader
 * (src/index.ts:64-66): turns the rows of a sheet into one locale tree per
 * language column.
 *
 * The rows are what `XLSX.utils.sheet_to_json(sheet, { defval: "" })`
 * returns; that library is not part of this model, so its output is the
 * input here, with every cell already converted to its string form.
 */
module SheetBuild {
  import opened Wrappers
  import opened Strings
  import opened LocaleTree
  import opened Seqs

  /**
   * One record of the sheet: its property names in enumeration order (the
   * raw, untrimmed header texts) and the cell text under each of them.
   */
  datatype Row = Row(keys: seq<string>, cells: map<string, string>)

  /** The explicit key-column and reference-column names a caller may pass. */
  datatype HeaderOptions = HeaderOptions(keyHeader: Option<string>, viHeader: Option<string>)

  /** "The sheet is empty." */
  datatype BuildError = EmptySheet

  /** The result: one top-level object per language header. */
  type Locales = map<string, Object>

  /** The roles of the columns, resolved once from the first row. */
  datatype Plan = Plan(keyHeader: Option<string>, viHeader: Option<string>, languages: seq<string>)

  // ---------------------------------------------------------------------
  // Column roles
  // ---------------------------------------------------------------------

  /** `normalizeHeader`: surrounding whitespace is not part of a header name. */
  function NormalizeHeader(header: string): string {
    Trim(header)
  }

  /** `Object.keys(json[0]).map(normalizeHeader)`. */
  function HeaderKeys(first: Row): seq<string> {
    NormalizeHeaders(first.keys)
  }

  function NormalizeHeaders(keys: seq<string>): (headers: seq<string>)
    ensures |headers| == |keys|
  {
    if keys == [] then [] else [NormalizeHeader(keys[0])] + NormalizeHeaders(keys[1..])
  }

  /** Each header is the trimmed property name at the same position. */
  lemma {:induction false} NormalizeHeadersAt(keys: seq<string>, i: nat)
    requires i < |keys|
    ensures NormalizeHeaders(keys)[i] == NormalizeHeader(keys[i])
  {
    if i > 0 {
      NormalizeHeadersAt(keys[1..], i - 1);
    }
  }

  /** `override ?? headers[i]`: `None` stands for `undefined`. */
  function ResolveHeader(override: Option<string>, headers: seq<string>, i: nat): Option<string> {
    if override.Some? then override
    else if i < |headers| then Some(headers[i])
    else None
  }

  /** The headers that are neither the key header nor the reference header, in order. */
  function LanguageHeaders(headers: seq<string>, keyHeader: Option<string>, viHeader: Option<string>): (r: seq<string>)
    ensures |r| <= |headers|
  {
    if headers == [] then []
    else
      var h := headers[0];
      (if Some(h) != keyHeader && Some(h) != viHeader then [h] else [])
        + LanguageHeaders(headers[1..], keyHeader, viHeader)
  }

  /** The language headers are exactly the headers that play neither other role. */
  lemma {:induction false} LanguageHeadersMembers(headers: seq<string>, keyHeader: Option<string>, viHeader: Option<string>, h: string)
    ensures h in LanguageHeaders(headers, keyHeader, viHeader)
        <==> h in headers && Some(h) != keyHeader && Some(h) != viHeader
  {
    if headers != [] {
      LanguageHeadersMembers(headers[1..], keyHeader, viHeader, h);
      assert headers == [headers[0]] + headers[1..];
    }
  }

  /** The filter keeps the headers' order: it distributes over concatenation. */
  lemma {:induction false} LanguageHeadersAppend(a: seq<string>, b: seq<string>, keyHeader: Option<string>, viHeader: Option<string>)
    ensures LanguageHeaders(a + b, keyHeader, viHeader)
         == LanguageHeaders(a, keyHeader, viHeader) + LanguageHeaders(b, keyHeader, viHeader)
  {
    if a == [] {
      assert a + b == b;
    } else {
      LanguageHeadersAppend(a[1..], b, keyHeader, viHeader);
      var h := if Some(a[0]) != keyHeader && Some(a[0]) != viHeader then [a[0]] else [];
      var ra, rb := LanguageHeaders(a[1..], keyHeader, viHeader), LanguageHeaders(b, keyHeader, viHeader);
      calc {
        LanguageHeaders(a + b, keyHeader, viHeader);
        { assert (a + b)[0] == a[0] && (a + b)[1..] == a[1..] + b; }
        h + LanguageHeaders(a[1..] + b, keyHeader, viHeader);
        h + (ra + rb);
        (h + ra) + rb;
      }
    }
  }

  /** Lines 82-89: the column roles read off the first row. */
  function ResolvePlan(first: Row, options: HeaderOptions): Plan {
    PlanFor(HeaderKeys(first),
            ResolveHeader(options.keyHeader, HeaderKeys(first), 0),
            ResolveHeader(options.viHeader, HeaderKeys(first), 1))
  }

  function PlanFor(headers: seq<string>, keyHeader: Option<string>, viHeader: Option<string>): Plan {
    Plan(keyHeader, viHeader, LanguageHeaders(headers, keyHeader, viHeader))
  }

  /**
   * Without overrides the key and reference columns are the first two
   * headers, and when the trimmed headers are distinct every other header,
   * in order, is a language.
   */
  lemma DefaultPlan(first: Row)
    requires |first.keys| >= 2
    ensures var headers := HeaderKeys(first);
            var plan := ResolvePlan(first, HeaderOptions(None, None));
            plan.keyHeader == Some(headers[0]) && plan.viHeader == Some(headers[1]) &&
            (Distinct(headers) ==> plan.languages == headers[2..])
  {
    var headers := HeaderKeys(first);
    if Distinct(headers) {
      DistinctLanguages(headers);
    }
  }

  /** No header occurs twice. */
  predicate Distinct(headers: seq<string>) {
    forall i, j :: 0 <= i < j < |headers| ==> headers[i] != headers[j]
  }

  lemma DistinctLanguages(headers: seq<string>)
    requires |headers| >= 2 && Distinct(headers)
    ensures LanguageHeaders(headers, Some(headers[0]), Some(headers[1])) == headers[2..]
  {
    var k, v := Some(headers[0]), Some(headers[1]);
    var front, rest := headers[..2], headers[2..];
    assert headers == front + rest;
    LanguageHeadersAppend(front, rest, k, v);
    assert front[1..] == [headers[1]];
    assert LanguageHeaders(front, k, v) == [];
    forall i | 0 <= i < |rest| ensures Some(rest[i]) != k && Some(rest[i]) != v {
      assert rest[i] == headers[i + 2];
    }
    LanguageHeadersKeepAll(rest, k, v);
  }

  lemma {:induction false} LanguageHeadersKeepAll(headers: seq<string>, keyHeader: Option<string>, viHeader: Option<string>)
    requires forall i :: 0 <= i < |headers| ==> Some(headers[i]) != keyHeader && Some(headers[i]) != viHeader
    ensures LanguageHeaders(headers, keyHeader, viHeader) == headers
  {
    if headers != [] {
      LanguageHeadersKeepAll(headers[1..], keyHeader, viHeader);
    }
  }

  // ---------------------------------------------------------------------
  // Reading a row
  // ---------------------------------------------------------------------

  /** The property key JavaScript uses for `row[name]`: `undefined` becomes "undefined". */
  function PropertyKey(name: Option<string>): string {
    if name.Some? then name.value else "undefined"
  }

  /** `row[name]`, read as "" when the row has no such property. */
  function CellAt(row: Row, name: string): string {
    if name in row.cells then row.cells[name] else ""
  }

  /** Line 97: the row's trimmed key. */
  function RowKey(row: Row, plan: Plan): string {
    Trim(CellAt(row, PropertyKey(plan.keyHeader)))
  }

  /** Lines 101-104: the string stored for a row in a language's tree. */
  function StoredValue(row: Row, lang: string): string {
    NormalizeCell(CellAt(row, lang))
  }

  // ---------------------------------------------------------------------
  // The build, as a fold over the rows
  // ---------------------------------------------------------------------

  /** Lines 91-94: an empty object for each language. */
  function InitLocales(langs: seq<string>): (r: Locales)
    ensures forall l :: l in r <==> l in langs
    ensures forall l :: l in r ==> r[l] == map[]
  {
    if langs == [] then map[]
    else InitLocales(langs[..|langs| - 1])[langs[|langs| - 1] := map[]]
  }

  /** Lines 100-106: a row's cells written under `key`, language after language. */
  function WriteCells(locales: Locales, row: Row, key: string, langs: seq<string>): (r: Locales)
    requires forall l :: l in langs ==> l in locales
    ensures r.Keys == locales.Keys
  {
    if langs == [] then locales
    else
      var before := WriteCells(locales, row, key, langs[..|langs| - 1]);
      var lang := langs[|langs| - 1];
      before[lang := SetNestedValue(before[lang], key, StoredValue(row, lang))]
  }

  /** Lines 97-106: one row; a row whose trimmed key is empty is skipped. */
  function ApplyRow(locales: Locales, row: Row, plan: Plan): (r: Locales)
    requires forall l :: l in plan.languages ==> l in locales
    ensures r.Keys == locales.Keys
  {
    if RowKey(row, plan) == "" then locales
    else WriteCells(locales, row, RowKey(row, plan), plan.languages)
  }

  /** Lines 96-107: the rows in sheet order. */
  function ApplyRows(locales: Locales, rows: seq<Row>, plan: Plan): (r: Locales)
    requires forall l :: l in plan.languages ==> l in locales
    ensures r.Keys == locales.Keys
  {
    if rows == [] then locales
    else ApplyRow(ApplyRows(locales, rows[..|rows| - 1], plan), rows[|rows| - 1], plan)
  }

  /** buildLocalesFromSheet on the rows sheet_to_json produced. */
  function Build(rows: seq<Row>, options: HeaderOptions): Result<Locales, BuildError> {
    if rows == [] then Err(EmptySheet)
    else Ok(BuildWith(rows, ResolvePlan(rows[0], options)))
  }

  /** The locales the rows give once the column roles are fixed. */
  function BuildWith(rows: seq<Row>, plan: Plan): Locales {
    ApplyRows(InitLocales(plan.languages), rows, plan)
  }

  /** The imperative builder: the loops of lines 78-109. */
  method BuildLocalesFromSheet(rows: seq<Row>, options: HeaderOptions) returns (r: Result<Locales, BuildError>)
    ensures r.Err? <==> rows == []
    ensures r == Build(rows, options)
  {
    if |rows| == 0 {
      return Err(EmptySheet);
    }
    var plan := ResolvePlan(rows[0], options);
    var locales := EmptyLocales(plan.languages);
    ghost var start := locales;
    for i := 0 to |rows|
      invariant forall l :: l in plan.languages ==> l in locales
      invariant locales == ApplyRows(start, rows[..i], plan)
    {
      locales := WriteRowIfKeyed(locales, rows[i], plan);
      TakeOneMore(rows, i);
      DropLastOfAppend(rows[..i], [rows[i]]);
    }
    assert rows[..|rows|] == rows;
    return Ok(locales);
  }

  /** Lines 91-94: an empty object for each language, language after language. */
  method EmptyLocales(langs: seq<string>) returns (locales: Locales)
    ensures locales == InitLocales(langs)
  {
    locales := map[];
    for j := 0 to |langs|
      invariant locales == InitLocales(langs[..j])
    {
      assert langs[..j + 1][..j] == langs[..j];
      locales := locales[langs[j] := map[]];
    }
    assert langs[..|langs|] == langs;
  }

  /**
   * Lines 97-106: the body of the outer loop; a row with a blank key is
   * skipped. `ApplyRow` is its specification, and the fold `ApplyRows` of
   * `ApplyRow` is what the whole loop is proved against.
   */
  method WriteRowIfKeyed(locales: Locales, row: Row, plan: Plan) returns (r: Locales)
    requires forall l :: l in plan.languages ==> l in locales
    ensures r == ApplyRow(locales, row, plan)
  {
    var key := Trim(CellAt(row, PropertyKey(plan.keyHeader)));
    assert key == RowKey(row, plan);
    if key == "" {
      return locales;
    }
    r := WriteRowCells(locales, row, key, plan.languages);
  }

  /** Lines 100-106: the inner loop, writing one row's cells language after language. */
  method WriteRowCells(locales: Locales, row: Row, key: string, langs: seq<string>) returns (r: Locales)
    requires forall l :: l in langs ==> l in locales
    ensures r == WriteCells(locales, row, key, langs)
  {
    r := locales;
    for j := 0 to |langs|
      invariant forall l :: l in langs ==> l in r
      invariant r == WriteCells(locales, row, key, langs[..j])
    {
      assert langs[..j + 1][..j] == langs[..j];
      var lang := langs[j];
      var value := NormalizeCell(CellAt(row, lang));
      r := r[lang := SetNestedValue(r[lang], key, value)];
    }
    assert langs[..|langs|] == langs;
  }

  // ---------------------------------------------------------------------
  // Each language's tree on its own
  // ---------------------------------------------------------------------

  /**
   * The reference definition of one language's tree: the rows in order,
   * each non-blank key writing that language's cell.
   */
  function LanguageTree(t: Object, rows: seq<Row>, plan: Plan, lang: string): Object {
    if rows == [] then t
    else WriteRow(LanguageTree(t, rows[..|rows| - 1], plan, lang), rows[|rows| - 1], plan, lang)
  }

  /** One row's write into one language's tree: nothing when its trimmed key is empty. */
  function WriteRow(t: Object, row: Row, plan: Plan, lang: string): Object {
    if RowKey(row, plan) == "" then t
    else SetNestedValue(t, RowKey(row, plan), StoredValue(row, lang))
  }

  /**
   * A row writes each language's cell into that language's tree and touches
   * no other entry; a language listed twice is written twice with the same
   * value, which is the same as once.
   */
  lemma {:induction false} WriteCellsAt(locales: Locales, row: Row, key: string, langs: seq<string>, l: string)
    requires forall x :: x in langs ==> x in locales
    requires l in locales
    ensures WriteCells(locales, row, key, langs)[l] ==
              if l in langs then SetNestedValue(locales[l], key, StoredValue(row, l)) else locales[l]
  {
    if langs != [] {
      var init, last := langs[..|langs| - 1], langs[|langs| - 1];
      assert langs == init + [last];
      WriteCellsAt(locales, row, key, init, l);
      var before := WriteCells(locales, row, key, init);
      assert WriteCells(locales, row, key, langs)
          == before[last := SetNestedValue(before[last], key, StoredValue(row, last))];
      if l == last && l in init {
        SetNestedValueTwice(locales[l], key, StoredValue(row, l));
      }
    }
  }

  /** The fold over rows splits at any point. */
  lemma {:induction false} ApplyRowsAppend(locales: Locales, a: seq<Row>, b: seq<Row>, plan: Plan)
    requires forall l :: l in plan.languages ==> l in locales
    ensures ApplyRows(locales, a + b, plan) == ApplyRows(ApplyRows(locales, a, plan), b, plan)
    decreases |b|
  {
    if b == [] {
      assert a + b == a;
    } else {
      var init, last := b[..|b| - 1], b[|b| - 1];
      ApplyRowsAppend(locales, a, init, plan);
      calc {
        ApplyRows(locales, a + b, plan);
        { DropLastOfAppend(a, b); }
        ApplyRow(ApplyRows(locales, a + init, plan), last, plan);
        ApplyRow(ApplyRows(ApplyRows(locales, a, plan), init, plan), last, plan);
      }
    }
  }

  /** Each language's tree in the fold is its reference tree. */
  lemma {:induction false} ApplyRowsAt(locales: Locales, rows: seq<Row>, plan: Plan, lang: string)
    requires forall l :: l in plan.languages ==> l in locales
    requires lang in plan.languages
    ensures ApplyRows(locales, rows, plan)[lang] == LanguageTree(locales[lang], rows, plan, lang)
  {
    if rows != [] {
      var init := rows[..|rows| - 1];
      ApplyRowsAt(locales, init, plan, lang);
      var row := rows[|rows| - 1];
      if RowKey(row, plan) != "" {
        WriteCellsAt(ApplyRows(locales, init, plan), row, RowKey(row, plan), plan.languages, lang);
      }
    }
  }

  /**
   * The result holds exactly one tree per language header, and each is that
   * language's column written row by row into an empty object.
   */
  lemma BuildPerLanguage(rows: seq<Row>, options: HeaderOptions)
    requires rows != []
    ensures Build(rows, options).Ok?
    ensures var plan := ResolvePlan(rows[0], options);
            var locales := Build(rows, options).value;
            (forall l :: l in locales <==> l in plan.languages) &&
            (forall l :: l in plan.languages ==> locales[l] == LanguageTree(map[], rows, plan, l))
  {
    var plan := ResolvePlan(rows[0], options);
    forall l | l in plan.languages
      ensures Build(rows, options).value[l] == LanguageTree(map[], rows, plan, l)
    {
      ApplyRowsAt(InitLocales(plan.languages), rows, plan, l);
    }
  }

  // ---------------------------------------------------------------------
  // Properties of the result
  // ---------------------------------------------------------------------

  /**
   * A row whose trimmed key is empty contributes nothing: inserting one
   * anywhere after the first row leaves the result unchanged.
   */
  lemma BlankRowContributesNothing(rows: seq<Row>, i: nat, blank: Row, options: HeaderOptions)
    requires 1 <= i <= |rows|
    requires RowKey(blank, ResolvePlan(rows[0], options)) == ""
    ensures Build(rows[..i] + [blank] + rows[i..], options) == Build(rows, options)
  {
    var plan := ResolvePlan(rows[0], options);
    var init := InitLocales(plan.languages);
    var front, back := rows[..i], rows[i..];
    HeadOfAppend(front + [blank], back);
    HeadOfAppend(front, [blank]);
    ApplyRowsAppend(init, front + [blank], back, plan);
    DropLastOfAppend(front, [blank]);
    ApplyRowsAppend(init, front, back, plan);
    SplitAt(rows, i);
  }

  /** No stored string holds a carriage return or a line feed. */
  lemma {:induction false} LanguageTreeNoLineBreaks(t: Object, rows: seq<Row>, plan: Plan, lang: string)
    requires NoLineBreaks(t)
    ensures NoLineBreaks(LanguageTree(t, rows, plan, lang))
  {
    if rows != [] {
      LanguageTreeNoLineBreaks(t, rows[..|rows| - 1], plan, lang);
      var row := rows[|rows| - 1];
      if RowKey(row, plan) != "" {
        SetPathKeepsNoLineBreaks(LanguageTree(t, rows[..|rows| - 1], plan, lang),
          Segments(RowKey(row, plan)), StoredValue(row, lang));
      }
    }
  }

  /** Every language tree of the result is free of actual line breaks. */
  lemma BuildNoLineBreaks(rows: seq<Row>, options: HeaderOptions)
    requires rows != []
    ensures forall l :: l in Build(rows, options).value ==> NoLineBreaks(Build(rows, options).value[l])
  {
    BuildPerLanguage(rows, options);
    var plan := ResolvePlan(rows[0], options);
    forall l | l in plan.languages ensures NoLineBreaks(LanguageTree(map[], rows, plan, l)) {
      LanguageTreeNoLineBreaks(map[], rows, plan, l);
    }
  }

  /** A row leaves a path alone when its key denotes no path or a path diverging from it. */
  predicate Avoids(row: Row, plan: Plan, path: seq<string>) {
    var q := Segments(RowKey(row, plan));
    q == [] || Diverge(q, path)
  }

  /** Rows that all avoid a path do not change what it holds. */
  lemma {:induction false} AvoidingRowsKeep(t: Object, rows: seq<Row>, plan: Plan, lang: string, path: seq<string>)
    requires forall j :: 0 <= j < |rows| ==> Avoids(rows[j], plan, path)
    ensures Lookup(LanguageTree(t, rows, plan, lang), path) == Lookup(t, path)
  {
    if rows != [] {
      var init := rows[..|rows| - 1];
      AvoidingRowsKeep(t, init, plan, lang, path);
      var row := rows[|rows| - 1];
      var q := Segments(RowKey(row, plan));
      assert Avoids(row, plan, path);
      if RowKey(row, plan) != "" && q != [] {
        SetPathFrame(LanguageTree(t, init, plan, lang), q, StoredValue(row, lang), path);
      }
    }
  }

  lemma {:induction false} LanguageTreeAppend(t: Object, a: seq<Row>, b: seq<Row>, plan: Plan, lang: string)
    ensures LanguageTree(t, a + b, plan, lang) == LanguageTree(LanguageTree(t, a, plan, lang), b, plan, lang)
    decreases |b|
  {
    if b == [] {
      assert a + b == a;
    } else {
      var init, last := b[..|b| - 1], b[|b| - 1];
      LanguageTreeAppend(t, a, init, plan, lang);
      DropLastOfAppend(a, b);
      var x := LanguageTree(t, a + init, plan, lang);
      assert x == LanguageTree(LanguageTree(t, a, plan, lang), init, plan, lang);
      assert a + b != [];
      assert LanguageTree(t, a + b, plan, lang) == WriteRow(x, last, plan, lang);
    }
  }

  /**
   * A row with a non-blank key leaves its language's cell at the key's
   * path, unless a later row writes on that path, above it or below it:
   * later rows win, and only they can displace it.
   */
  lemma RowValueSurvives(rows: seq<Row>, options: HeaderOptions, i: nat, lang: string)
    requires i < |rows|
    requires var plan := ResolvePlan(rows[0], options);
             lang in plan.languages && Segments(RowKey(rows[i], plan)) != [] &&
             forall j :: i < j < |rows| ==> Avoids(rows[j], plan, Segments(RowKey(rows[i], plan)))
    ensures Build(rows, options).Ok?
    ensures var plan := ResolvePlan(rows[0], options);
            Lookup(Build(rows, options).value[lang], Segments(RowKey(rows[i], plan)))
              == Some(Leaf(StoredValue(rows[i], lang)))
  {
    var plan := ResolvePlan(rows[0], options);
    BuildPerLanguage(rows, options);
    LanguageTreeRowSurvives(map[], rows, plan, i, lang);
  }

  /** RowValueSurvives for one language's reference tree. */
  lemma LanguageTreeRowSurvives(t: Object, rows: seq<Row>, plan: Plan, i: nat, lang: string)
    requires i < |rows|
    requires Segments(RowKey(rows[i], plan)) != []
    requires forall j :: i < j < |rows| ==> Avoids(rows[j], plan, Segments(RowKey(rows[i], plan)))
    ensures Lookup(LanguageTree(t, rows, plan, lang), Segments(RowKey(rows[i], plan)))
              == Some(Leaf(StoredValue(rows[i], lang)))
  {
    var path := Segments(RowKey(rows[i], plan));
    RowStoresItsCell(t, rows, plan, i, lang);
    LaterRowsAvoid(rows, plan, i, path, rows[i + 1..]);
    KeptByLaterRows(t, rows[..i + 1], rows[i + 1..], plan, lang, path, Leaf(StoredValue(rows[i], lang)));
    SplitAt(rows, i + 1);
  }

  /** What a path holds after some rows stays there through later rows that avoid it. */
  lemma KeptByLaterRows(t: Object, front: seq<Row>, back: seq<Row>, plan: Plan, lang: string, path: seq<string>, n: Tree)
    requires Lookup(LanguageTree(t, front, plan, lang), path) == Some(n)
    requires forall j :: 0 <= j < |back| ==> Avoids(back[j], plan, path)
    ensures Lookup(LanguageTree(t, front + back, plan, lang), path) == Some(n)
  {
    AvoidingRowsKeep(LanguageTree(t, front, plan, lang), back, plan, lang, path);
    LanguageTreeAppend(t, front, back, plan, lang);
  }

  /** Right after row i, its cell sits at its key's path. */
  lemma RowStoresItsCell(t: Object, rows: seq<Row>, plan: Plan, i: nat, lang: string)
    requires i < |rows|
    requires Segments(RowKey(rows[i], plan)) != []
    ensures Lookup(LanguageTree(t, rows[..i + 1], plan, lang), Segments(RowKey(rows[i], plan)))
              == Some(Leaf(StoredValue(rows[i], lang)))
  {
    assert RowKey(rows[i], plan) != "" by {
      if RowKey(rows[i], plan) == "" {
        DotsOnlyHaveNoSegments("");
      }
    }
    TakeOneMore(rows, i);
    DropLastOfAppend(rows[..i], [rows[i]]);
    SetPathStores(LanguageTree(t, rows[..i], plan, lang), Segments(RowKey(rows[i], plan)), StoredValue(rows[i], lang));
  }

  /** The rows after row i, renumbered from 0, avoid the path. */
  lemma LaterRowsAvoid(rows: seq<Row>, plan: Plan, i: nat, path: seq<string>, back: seq<Row>)
    requires i < |rows| && back == rows[i + 1..]
    requires forall j :: i < j < |rows| ==> Avoids(rows[j], plan, path)
    ensures forall j :: 0 <= j < |back| ==> Avoids(back[j], plan, path)
  {
    forall j | 0 <= j < |back| ensures Avoids(back[j], plan, path) {
      assert back[j] == rows[i + 1 + j];
    }
  }

  /** Rows whose trimmed keys are all empty leave a tree as it was. */
  lemma {:induction false} BlankRowsKeep(t: Object, rows: seq<Row>, plan: Plan, lang: string)
    requires forall j :: 0 <= j < |rows| ==> RowKey(rows[j], plan) == ""
    ensures LanguageTree(t, rows, plan, lang) == t
  {
    if rows != [] {
      BlankRowsKeep(t, rows[..|rows| - 1], plan, lang);
    }
  }

  /**
   * Headers are trimmed before cells are looked up by them, so a key
   * column whose raw header carries surrounding whitespace is read through
   * a name no row has: every row's key reads as "" and every language
   * tree stays empty.
   */
  lemma PaddedKeyHeaderSkipsAllRows(rows: seq<Row>, options: HeaderOptions)
    requires rows != [] && options.keyHeader.None? && |rows[0].keys| >= 1
    requires forall j :: 0 <= j < |rows| ==> NormalizeHeader(rows[0].keys[0]) !in rows[j].cells
    ensures Build(rows, options).Ok?
    ensures forall l :: l in Build(rows, options).value ==> Build(rows, options).value[l] == map[]
  {
    var plan := ResolvePlan(rows[0], options);
    NormalizeHeadersAt(rows[0].keys, 0);
    assert plan.keyHeader == Some(NormalizeHeader(rows[0].keys[0]));
    assert Trim("") == "";
    BuildPerLanguage(rows, options);
    forall l | l in plan.languages ensures LanguageTree(map[], rows, plan, l) == map[] {
      BlankRowsKeep(map[], rows, plan, l);
    }
  }
}
