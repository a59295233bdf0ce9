/** Column-name normalisation: the synonym table and the renaming of a loaded frame's headers. */
module Columns {
  import opened Wrappers
  import opened Seqs
  import opened Text
  import opened Table

  /** One entry of the synonym table: a canonical name and the header spellings accepted for it. */
  datatype Synonyms = Synonyms(canonical: string, accepted: seq<string>)

  /** The synonym table, in its declaration order. */
  const ColumnMapping: seq<Synonyms> := [
    Synonyms(DateColumn, ["Data", "data", "Data de Venda", "Dia"]),
    Synonyms(ProductColumn, ["Produto", "Item", "Mercadoria", "produto"]),
    Synonyms(QuantityColumn, ["Quantidade", "Qtd", "Qtd Vendida", "quantidade"]),
    Synonyms(UnitPriceColumn, ["Preço Unitário", "Valor Unitário", "Preço", "preco_unitario"]),
    Synonyms(TotalColumn, ["Total de Vendas", "Valor Total", "Total", "Total Venda", "total venda"])
  ]

  /** The table's keys in order. */
  const CanonicalNames: seq<string> := [DateColumn, ProductColumn, QuantityColumn, UnitPriceColumn, TotalColumn]

  /** The canonical name a header gets from `entries`: that of the last entry accepting it,
      since the renaming loop overwrites earlier corrections. */
  function Lookup(entries: seq<Synonyms>, h: string): Option<string> {
    if entries == [] then None
    else if h in entries[|entries| - 1].accepted then Some(entries[|entries| - 1].canonical)
    else Lookup(entries[..|entries| - 1], h)
  }

  /** The name header `h` carries after normalisation. */
  function CanonicalName(h: string): string {
    Lookup(ColumnMapping, h).GetOr(h)
  }

  /** The headers after normalisation. */
  function Renamed(columns: seq<string>): seq<string> {
    seq(|columns|, i requires 0 <= i < |columns| => CanonicalName(columns[i]))
  }

  /** `df.rename(columns=corrections)`: every header found in the dictionary is replaced. */
  function Rename(columns: seq<string>, corrections: map<string, string>): seq<string> {
    seq(|columns|, i requires 0 <= i < |columns| =>
      if columns[i] in corrections then corrections[columns[i]] else columns[i])
  }

  /** The canonical names absent from `columns`, in the order of `names`. */
  function MissingFrom(names: seq<string>, columns: seq<string>): (r: seq<string>)
    ensures forall x :: x in r <==> x in names && x !in columns
    ensures Subsequence(r, names)
  {
    if names == [] then []
    else if names[0] in columns then MissingFrom(names[1..], columns)
    else [names[0]] + MissingFrom(names[1..], columns)
  }

  /** The list comprehension that collects the missing required columns. */
  function MissingColumns(columns: seq<string>): seq<string> {
    MissingFrom(CanonicalNames, columns)
  }

  /** Every canonical name is among `columns`. */
  predicate HasCanonicalColumns(columns: seq<string>) {
    forall k :: k in CanonicalNames ==> k in columns
  }

  /** The list of missing names is empty exactly when every canonical name is present. */
  lemma MissingEmptyIff(columns: seq<string>)
    ensures MissingColumns(columns) == [] <==> HasCanonicalColumns(columns)
  {
    var missing := MissingColumns(columns);
    if missing != [] {
      assert missing[0] in missing;
    }
  }

  /** Some header of `columns` is accepted for entry `k` of the table. */
  ghost predicate Supplies(columns: seq<string>, k: nat)
    requires k < |ColumnMapping|
  {
    exists h :: h in columns && h in ColumnMapping[k].accepted
  }

  /** The nested loop that fills `column_corrections`: every header accepted by some entry,
      mapped to that entry's canonical name. */
  method BuildCorrections(columns: seq<string>) returns (corrections: map<string, string>)
    ensures forall h :: h in corrections <==> h in columns && Lookup(ColumnMapping, h).Some?
    ensures forall h :: h in corrections ==> corrections[h] == Lookup(ColumnMapping, h).value
  {
    corrections := map[];
    var i := 0;
    while i < |ColumnMapping|
      invariant 0 <= i <= |ColumnMapping|
      invariant forall h :: h in corrections <==> h in columns && Lookup(ColumnMapping[..i], h).Some?
      invariant forall h :: h in corrections ==> corrections[h] == Lookup(ColumnMapping[..i], h).value
    {
      var entry := ColumnMapping[i];
      var j := 0;
      while j < |columns|
        invariant 0 <= j <= |columns|
        invariant forall h :: h in corrections <==>
          (h in columns[..j] && h in entry.accepted) || (h in columns && Lookup(ColumnMapping[..i], h).Some?)
        invariant forall h :: h in corrections ==>
          corrections[h] == if h in columns[..j] && h in entry.accepted then entry.canonical else Lookup(ColumnMapping[..i], h).value
      {
        if columns[j] in entry.accepted {
          corrections := corrections[columns[j] := entry.canonical];
        }
        assert columns[..j + 1] == columns[..j] + [columns[j]];
        j := j + 1;
      }
      assert columns[..j] == columns;
      assert ColumnMapping[..i + 1][..i] == ColumnMapping[..i];
      i := i + 1;
    }
    assert ColumnMapping[..i] == ColumnMapping;
  }

  /** normalize_column_names: renames the frame's headers in place, then fails with the list of
      required columns that are still absent. */
  method NormalizeColumnNames(df: Frame) returns (r: Result<Frame, SalesError>)
    requires df.Valid()
    modifies df
    ensures df.Valid()
    ensures df.columns == Renamed(old(df.columns)) && df.cells == old(df.cells)
    ensures r.Success? <==> HasCanonicalColumns(df.columns)
    ensures r.Success? ==> r.value == df
    ensures r.Failure? ==> r.error == ColumnsMissing(MissingColumns(df.columns))
  {
    var corrections := BuildCorrections(df.columns);
    df.columns := Rename(df.columns, corrections);
    assert df.columns == Renamed(old(df.columns));
    var missing := MissingColumns(df.columns);
    if missing != [] {
      assert missing[0] in CanonicalNames && missing[0] !in df.columns;
      return Failure(ColumnsMissing(missing));
    }
    return Success(df);
  }

  // ---- Properties of the synonym table and of renaming ----

  /** A header found by `Lookup` belongs to the list of the entry whose name it gets. */
  lemma {:induction false} LookupSound(entries: seq<Synonyms>, h: string)
    requires Lookup(entries, h).Some?
    ensures exists k :: 0 <= k < |entries| && h in entries[k].accepted && entries[k].canonical == Lookup(entries, h).value
  {
    var n := |entries| - 1;
    if h !in entries[n].accepted {
      LookupSound(entries[..n], h);
      var k :| 0 <= k < n && h in entries[..n][k].accepted && entries[..n][k].canonical == Lookup(entries, h).value;
      assert entries[k] == entries[..n][k];
    }
  }

  /** A header accepted by entry `k` and by no later entry gets entry `k`'s name. */
  lemma {:induction false} LookupComplete(entries: seq<Synonyms>, h: string, k: nat)
    requires k < |entries| && h in entries[k].accepted
    requires forall k2 :: k < k2 < |entries| ==> h !in entries[k2].accepted
    ensures Lookup(entries, h) == Some(entries[k].canonical)
  {
    var n := |entries| - 1;
    if k < n {
      assert h !in entries[n].accepted;
      var init := entries[..n];
      forall k2 | k < k2 < |init| ensures h !in init[k2].accepted {
        assert init[k2] == entries[k2];
      }
      LookupComplete(init, h, k);
    }
  }

  /** A header in no list of `entries` is not renamed. */
  lemma {:induction false} LookupNone(entries: seq<Synonyms>, h: string)
    requires forall k :: 0 <= k < |entries| ==> h !in entries[k].accepted
    ensures Lookup(entries, h) == None
  {
    if entries != [] {
      var init := entries[..|entries| - 1];
      forall k | 0 <= k < |init| ensures h !in init[k].accepted {
        assert init[k] == entries[k];
      }
      LookupNone(init, h);
    }
  }

  /** Every canonical name is in its own list, and the names are pairwise different. */
  lemma MappingShape()
    ensures |ColumnMapping| == |CanonicalNames| == 5
    ensures forall k :: 0 <= k < 5 ==> ColumnMapping[k].canonical == CanonicalNames[k]
    ensures forall k :: 0 <= k < 5 ==> CanonicalNames[k] in ColumnMapping[k].accepted
    ensures Distinct(CanonicalNames)
  {
  }

  /** No spelling is accepted by two entries. */
  lemma MappingDisjoint(k1: nat, k2: nat, h: string)
    requires k1 < 5 && k2 < 5 && k1 != k2 && h in ColumnMapping[k1].accepted
    ensures h !in ColumnMapping[k2].accepted
  {
  }

  /** A header listed for entry `k` is renamed to entry `k`'s canonical name. */
  lemma SynonymRenamed(k: nat, h: string)
    requires k < |ColumnMapping| && h in ColumnMapping[k].accepted
    ensures CanonicalName(h) == CanonicalNames[k]
  {
    MappingShape();
    forall k2 | k < k2 < |ColumnMapping| ensures h !in ColumnMapping[k2].accepted {
      MappingDisjoint(k, k2, h);
    }
    LookupComplete(ColumnMapping, h, k);
  }

  /** A header in no list keeps its name. */
  lemma UnlistedKept(h: string)
    requires forall k :: 0 <= k < |ColumnMapping| ==> h !in ColumnMapping[k].accepted
    ensures CanonicalName(h) == h
  {
    LookupNone(ColumnMapping, h);
  }

  /** A header is renamed to canonical name `k` exactly when entry `k` lists it. */
  lemma RenamedToIff(k: nat, h: string)
    requires k < |ColumnMapping|
    ensures CanonicalName(h) == CanonicalNames[k] <==> h in ColumnMapping[k].accepted
  {
    MappingShape();
    if h in ColumnMapping[k].accepted {
      SynonymRenamed(k, h);
    } else if Lookup(ColumnMapping, h).Some? {
      LookupSound(ColumnMapping, h);
      var k2 :| 0 <= k2 < |ColumnMapping| && h in ColumnMapping[k2].accepted
        && ColumnMapping[k2].canonical == Lookup(ColumnMapping, h).value;
      assert k2 != k;
    } else {
      // `h` keeps its name, and a canonical name is always in its own list.
      assert CanonicalName(h) == h;
    }
  }

  /** Renaming an already-canonical header changes nothing. */
  lemma CanonicalKept(h: string)
    requires h in CanonicalNames
    ensures CanonicalName(h) == h
  {
    MappingShape();
    var k :| 0 <= k < 5 && CanonicalNames[k] == h;
    SynonymRenamed(k, h);
  }

  /** Renaming a header twice is renaming it once. */
  lemma CanonicalNameIdempotent(h: string)
    ensures CanonicalName(CanonicalName(h)) == CanonicalName(h)
  {
    MappingShape();
    if Lookup(ColumnMapping, h).Some? {
      LookupSound(ColumnMapping, h);
      var k :| 0 <= k < |ColumnMapping| && h in ColumnMapping[k].accepted
        && ColumnMapping[k].canonical == Lookup(ColumnMapping, h).value;
      CanonicalKept(CanonicalNames[k]);
    }
  }

  /** Normalising twice equals normalising once. */
  lemma RenamedIdempotent(columns: seq<string>)
    ensures Renamed(Renamed(columns)) == Renamed(columns)
  {
    forall i | 0 <= i < |columns| ensures Renamed(Renamed(columns))[i] == Renamed(columns)[i] {
      CanonicalNameIdempotent(columns[i]);
    }
  }

  /** Normalising headers that are all canonical is a no-op. */
  lemma RenamedCanonicalNoOp(columns: seq<string>)
    requires forall h :: h in columns ==> h in CanonicalNames
    ensures Renamed(columns) == columns
  {
    forall i | 0 <= i < |columns| ensures Renamed(columns)[i] == columns[i] {
      CanonicalKept(columns[i]);
    }
  }

  /** After renaming, canonical name `k` is reported missing exactly when no header is listed for it. */
  lemma MissingExactly(columns: seq<string>, k: nat)
    requires k < |ColumnMapping|
    ensures CanonicalNames[k] in MissingColumns(Renamed(columns)) <==> !Supplies(columns, k)
  {
    MappingShape();
    var renamed := Renamed(columns);
    if CanonicalNames[k] in renamed {
      var i :| 0 <= i < |renamed| && renamed[i] == CanonicalNames[k];
      RenamedToIff(k, columns[i]);
    }
    if Supplies(columns, k) {
      var h :| h in columns && h in ColumnMapping[k].accepted;
      var i :| 0 <= i < |columns| && columns[i] == h;
      SynonymRenamed(k, h);
      assert renamed[i] == CanonicalNames[k];
    }
  }

  /** Normalisation fails exactly when some canonical name has none of its spellings among the headers. */
  lemma NormalizeFailsIff(columns: seq<string>)
    ensures MissingColumns(Renamed(columns)) != [] <==> exists k :: 0 <= k < |ColumnMapping| && !Supplies(columns, k)
  {
    MappingShape();
    var missing := MissingColumns(Renamed(columns));
    if missing != [] {
      assert missing[0] in CanonicalNames;
      var k :| 0 <= k < 5 && CanonicalNames[k] == missing[0];
      MissingExactly(columns, k);
    }
    if k :| 0 <= k < |ColumnMapping| && !Supplies(columns, k) {
      MissingExactly(columns, k);
    }
  }

  /** The error message names every canonical name that has none of its spellings among the headers. */
  lemma MissingMessageNames(columns: seq<string>, k: nat)
    requires k < |ColumnMapping| && !Supplies(columns, k)
    ensures Message(ColumnsMissing(MissingColumns(Renamed(columns)))).Some?
    ensures exists i :: OccursAt(Message(ColumnsMissing(MissingColumns(Renamed(columns)))).value, CanonicalNames[k], i)
  {
    var missing := MissingColumns(Renamed(columns));
    MissingExactly(columns, k);
    var j :| 0 <= j < |missing| && missing[j] == CanonicalNames[k];
    JoinContainsParts(missing, ", ", j);
    var joined := Join(missing, ", ");
    var i :| OccursAt(joined, CanonicalNames[k], i);
    var prefix := "O arquivo CSV está faltando as seguintes colunas obrigatórias: ";
    var msg := prefix + joined;
    assert Message(ColumnsMissing(missing)).value == msg;
    assert msg[|prefix| + i..|prefix| + i + |CanonicalNames[k]|] == joined[i..i + |CanonicalNames[k]|];
    assert OccursAt(msg, CanonicalNames[k], |prefix| + i);
  }
}
