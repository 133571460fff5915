/** Fields under other names: an attribute or a label named by an alias is read, and written, as the field it names. */
module CadAliases {
  import opened Text
  import opened CadKeys
  import opened CadFields

  /** Such an attribute alone, or such a label with a value, gives just that field. */
  lemma AliasRead(name: string, value: string, k: string, aliases: Aliases)
    requires Names(name, k, aliases) && k != "" && !Blank(name) && !Blank(value)
    ensures FieldsOf([[Attribute(name, value)]], [], aliases) == map[k := Strip(value)]
    ensures !IsPairCell(name) ==> FieldsOf([], [[[name, value]]], aliases) == map[k := Strip(value)]
  {
    hide CanonicalKey;
    NamesIff(name, k, aliases);
    var block, row := [Attribute(name, value)], [name, value];
    var blocks: seq<seq<Attribute>>, rows: seq<Row>, tables: seq<seq<Row>> := [block], [row], [[row]];
    assert block[..0] == [] && blocks[..0] == [] && rows[..0] == [] && tables[..0] == [];
    assert ReadBlock(block, map[], aliases) == AddField(ReadBlock([], map[], aliases), name, value, aliases);
    assert ReadBlocks([block], map[], aliases) == ReadBlock(block, ReadBlocks([], map[], aliases), aliases);
    if !IsPairCell(name) {
      assert ReadRow(row, 0, map[], aliases) == ReadRow(row, 2, AddField(map[], name, value, aliases), aliases);
      assert ReadRows([row], map[], aliases) == ReadRow(row, 0, ReadRows([], map[], aliases), aliases);
      assert ReadTables([[row]], map[], aliases) == ReadRows([row], ReadTables([], map[], aliases), aliases);
    }
  }

  /** Writing a field, given under any of its names, rewrites such an attribute and such a label's value. */
  lemma AliasWritten(name: string, before: string, given: Attribute, k: string, aliases: Aliases)
    requires Names(name, k, aliases) && Names(given.name, k, aliases) && k != "" && !Blank(given.value)
    ensures var norm := Normalized([given], aliases);
            && WriteBlocks([[Attribute(name, before)]], norm, aliases).now == [[Attribute(name, given.value)]]
            && (IsLabel(name) && before != given.value ==>
                  WriteTables([[[name, before]]], norm, aliases).now == [[[name, given.value]]])
  {
    hide CanonicalKey;
    hide Names;
    NamesIff(name, k, aliases);
    NamesIff(given.name, k, aliases);
    var norm := Normalized([given], aliases);
    assert norm == map[k := given.value] by {
      assert [given][..0] == [] && Normalized([], aliases) == map[];
    }
    var blocks, tables := [[Attribute(name, before)]], [[[name, before]]];
    assert WriteAttribute(Attribute(name, before), norm, aliases) == Attribute(name, given.value);
    assert WriteBlock(blocks[0], norm, aliases).now == [Attribute(name, given.value)];
    assert |WriteBlocks(blocks, norm, aliases).now| == 1 && WriteBlocks(blocks, norm, aliases).now[0] == [Attribute(name, given.value)];
    if IsLabel(name) && before != given.value {
      var row := [name, before];
      assert WriteRow(row, 0, norm, aliases).now == WriteRow(row[1 := given.value], 2, norm, aliases).now == [name, given.value];
      assert |WriteRows(tables[0], norm, aliases).now| == 1 && WriteRows(tables[0], norm, aliases).now[0] == [name, given.value];
      assert |WriteTables(tables, norm, aliases).now| == 1 && WriteTables(tables, norm, aliases).now[0] == [[name, given.value]];
    }
  }

  /** The Chinese word for material. */
  const MATERIAL := "\U{6750}\U{6599}"

  lemma MaterialSpelled()
    ensures Spells(MATERIAL, MATERIAL) && !Blank(MATERIAL) && IsLabel(MATERIAL)
  {
    var c, d := MATERIAL[0], MATERIAL[1];
    assert MATERIAL == [c, d] && c == '\U{6750}' && d == '\U{6599}';
    assert MATERIAL[1..] == [d] && [d][1..] == "";
    assert Reads([d], [d]) && Reads(MATERIAL, MATERIAL);
    assert "" + MATERIAL + "" == MATERIAL;
    assert SpellsWithin(MATERIAL, MATERIAL, "", MATERIAL, "");
    assert '=' !in MATERIAL;
    PairCellIff(MATERIAL);
  }

  /** The fixture's attribute `Q235B` under the Chinese name is read as `material`, and rewritten when `material` is. */
  lemma MaterialFixture(aliases: Aliases)
    requires MATERIAL in aliases && aliases[MATERIAL] == "material"
    requires "material" in aliases ==> aliases["material"] == "material"
    ensures FieldsOf([[Attribute(MATERIAL, "Q235B")]], [], aliases) == map["material" := "Q235B"]
    ensures FieldsOf([], [[[MATERIAL, "Q235B"]]], aliases) == map["material" := "Q235B"]
    ensures var norm := Normalized([Attribute("material", "Q355B")], aliases);
            && WriteBlocks([[Attribute(MATERIAL, "Q235B")]], norm, aliases).now == [[Attribute(MATERIAL, "Q355B")]]
            && WriteTables([[[MATERIAL, "Q235B"]]], norm, aliases).now == [[[MATERIAL, "Q355B"]]]
  {
    MaterialNamed(aliases);
    QualityTexts();
    hide Names;
    hide FieldsOf;
    hide WriteBlocks;
    hide WriteTables;
    hide Normalized;
    hide Blank;
    hide Strip;
    hide IsPairCell;
    AliasRead(MATERIAL, "Q235B", "material", aliases);
    AliasWritten(MATERIAL, "Q235B", Attribute("material", "Q355B"), "material", aliases);
  }

  lemma MaterialNamed(aliases: Aliases)
    requires MATERIAL in aliases && aliases[MATERIAL] == "material"
    requires "material" in aliases ==> aliases["material"] == "material"
    ensures Names(MATERIAL, "material", aliases) && Names("material", "material", aliases)
    ensures !Blank(MATERIAL) && !IsPairCell(MATERIAL)
  {
    MaterialSpelled();
    EnglishSpelled();
  }

  lemma QualityTexts()
    ensures Strip("Q235B") == "Q235B" && !Blank("Q235B") && !Blank("Q355B") && "Q235B" != "Q355B"
  {
    StripTrimmed("Q235B");
    NotBlankText("Q235B");
    NotBlankText("Q355B");
    assert "Q235B"[1] == '2' && "Q355B"[1] == '3';
  }

  lemma NotBlankText(s: string)
    requires s != "" && !IsSpace(s[0])
    ensures !Blank(s)
  {
  }

  lemma {:induction false} SmallLettersRead(s: string)
    requires forall i :: 0 <= i < |s| ==> 'a' <= s[i] <= 'z'
    ensures Reads(s, s)
  {
    if s != "" {
      SmallLettersRead(s[1..]);
    }
  }

  lemma EnglishSpelled()
    ensures Spells("material", "material")
  {
    SmallLettersRead("material");
    assert "" + "material" + "" == "material";
    assert SpellsWithin("material", "material", "", "material", "");
  }
}
