/** The order view as the page builds it, with the fallback "OTROS" of
    `OrderText.OtrosAsWritten`: a row without a category is filed under
    "OTROS", while the form's own category is spelt "Otros". The two are
    different keys, so they form two groups, and once upper-cased both
    groups are headed "OTROS". */
module OrderTextAsWritten {
  import opened Strings
  import opened Domain
  import opened OrderText

  /** An upper-casing that agrees with `str.upper()` on ASCII letters. */
  function UpperChar(c: char): char {
    if 'a' <= c <= 'z' then (c as int - 32) as char else c
  }

  function UpperAscii(s: string): string {
    if s == [] then [] else [UpperChar(s[0])] + UpperAscii(s[1..])
  }

  lemma {:induction false} UpperAsciiLength(s: string)
    ensures |UpperAscii(s)| == |s|
    decreases |s|
  {
    if s != [] { UpperAsciiLength(s[1..]); }
  }

  /** The form's categories differ in length or in their upper-cased first
      letter. */
  lemma CategoriasSignatures(a: string, b: string)
    requires a in Categorias && b in Categorias
    requires |a| == |b| && UpperChar(a[0]) == UpperChar(b[0])
    ensures a == b
  {
  }

  /** The upper-casing tells the form's categories apart, so it meets the
      premise of `OrderHeadingsOnce`. */
  lemma UpperAsciiSeparatesCategorias()
    ensures forall a, b :: a in Categorias && b in Categorias && UpperAscii(a) == UpperAscii(b) ==> a == b
  {
    forall a, b | a in Categorias && b in Categorias && UpperAscii(a) == UpperAscii(b) ensures a == b {
      UpperAsciiLength(a);
      UpperAsciiLength(b);
      assert UpperAscii(a)[0] == UpperChar(a[0]) && UpperAscii(b)[0] == UpperChar(b[0]);
      CategoriasSignatures(a, b);
    }
  }

  /** A Barra row saved without a category. */
  const Unfiled: Shortage := Shortage(1, 0, "Hielo", None, Some(2.0), "kg", "Media", "Barra", "", Pendiente, "")

  /** A Salón row filed under the form's "Otros". */
  const FiledUnderOtros: Shortage :=
    Shortage(2, 0, "Servilletas", Some("Otros"), Some(1.0), "pack", "Baja", "Salón", "", Pendiente, "")

  /** Both spellings upper-case to the same heading. */
  lemma UpperOtros()
    ensures UpperAscii("OTROS") == "OTROS" && UpperAscii("Otros") == "OTROS"
  {
  }

  /** A row without a category followed by a row filed under "Otros", both
      kept by the view: the view as written lists the first under "OTROS",
      which sorts before "Otros". */
  lemma AsWrittenRows(a: Shortage, b: Shortage, role: string, included: seq<Status>)
    requires a.category.None? && b.category == Some("Otros")
    requires OrderKeeps(role, included, a) && OrderKeeps(role, included, b)
    ensures OrderRows([a, b], role, included, OtrosAsWritten) == [a.(category := Some(OtrosAsWritten)), b]
  {
    var rows := [a, b];
    var a' := a.(category := Some(OtrosAsWritten));
    assert Select(rows, x => OrderKeeps(role, included, x)) == rows by {
      assert rows[1..] == [b] && rows[1..][1..] == [];
    }
    assert NormalizedCategory(a.category, OtrosAsWritten) == OtrosAsWritten by {
      assert OrEmpty(a.category) == "";
    }
    assert NormalizedCategory(b.category, OtrosAsWritten) == "Otros" by {
      StripFixed("Otros");
      assert !IsSpace("Otros"[0]);
    }
    var n := NormalizeAll(rows, OtrosAsWritten);
    assert n[0] == a' && n[1] == b;
    assert n == [a', b];
    assert StrLe("OTROS", "Otros") by {
      assert "OTROS"[1..] == "TROS" && "Otros"[1..] == "tros";
    }
    assert Sort([a', b]) == [a', b] by {
      assert [a', b][1..] == [b] && [b][1..] == [];
      assert Sort([b]) == [b];
      assert KeyLe(a', b);
    }
  }

  /** Two rows under different keys form two groups. */
  lemma TwoKeyGroups(a: Shortage, b: Shortage)
    requires Cat(a) != Cat(b)
    ensures Groups([a, b]) == [Group(Cat(a), [a]), Group(Cat(b), [b])]
  {
    assert [a, b][1..] == [b] && [a, b][..1] == [a];
    assert RunLength([a, b], Cat(a)) == 1;
    assert Groups([b]) == [Group(Cat(b), [b])] by {
      assert RunLength([b], Cat(b)) == 1;
      assert [b][..1] == [b] && [b][1..] == [];
    }
  }

  /** The lines of a message whose two rows lie under different keys. */
  lemma TwoGroupLines(date: string, a: Shortage, b: Shortage, upper: string -> string, fmt: real -> string)
    requires Cat(a) != Cat(b)
    ensures OrderLines(date, [a, b], upper, fmt)
      == [HeaderLine(date), "", upper(Cat(a)), ItemLine(a, fmt), "", upper(Cat(b)), ItemLine(b, fmt), ""]
  {
    TwoKeyGroups(a, b);
    var g0 := Group(Cat(a), [a]);
    var g1 := Group(Cat(b), [b]);
    assert [g0, g1][..1] == [g0] && [g0][..0] == [];
    assert ItemLines([a], fmt) == [ItemLine(a, fmt)] by { assert [a][1..] == []; }
    assert ItemLines([b], fmt) == [ItemLine(b, fmt)] by { assert [b][1..] == []; }
    assert Blocks([g0], upper, fmt) == Block(g0, upper, fmt);
    assert Blocks([g0, g1], upper, fmt) == Blocks([g0], upper, fmt) + Block(g1, upper, fmt);
  }

  /** The lines the code writes for such a pair of rows. */
  lemma AsWrittenLines(date: string, a: Shortage, b: Shortage, role: string, included: seq<Status>,
      fmt: real -> string)
    requires a.category.None? && b.category == Some("Otros")
    requires OrderKeeps(role, included, a) && OrderKeeps(role, included, b)
    ensures OrderLines(date, OrderRows([a, b], role, included, OtrosAsWritten), UpperAscii, fmt)
      == [HeaderLine(date), "", "OTROS", ItemLine(a.(category := Some(OtrosAsWritten)), fmt), "",
          "OTROS", ItemLine(b, fmt), ""]
  {
    AsWrittenRows(a, b, role, included);
    var a' := a.(category := Some(OtrosAsWritten));
    assert Cat(a') == "OTROS" && Cat(b) == "Otros";
    UpperOtros();
    TwoGroupLines(date, a', b, UpperAscii, fmt);
  }

  /** For any such pair of rows, the message written as the code does it
      heads two groups "OTROS" (lines 2 and 5), although the upper-casing
      separates the form's categories. */
  lemma OtrosHeadingRepeated(date: string, a: Shortage, b: Shortage, role: string, included: seq<Status>,
      fmt: real -> string)
    requires a.category.None? && b.category == Some("Otros")
    requires OrderKeeps(role, included, a) && OrderKeeps(role, included, b)
    ensures |OrderLines(date, OrderRows([a, b], role, included, OtrosAsWritten), UpperAscii, fmt)| == 8
    ensures OrderLines(date, OrderRows([a, b], role, included, OtrosAsWritten), UpperAscii, fmt)[2] == "OTROS"
    ensures OrderLines(date, OrderRows([a, b], role, included, OtrosAsWritten), UpperAscii, fmt)[5] == "OTROS"
  {
    AsWrittenLines(date, a, b, role, included, fmt);
  }

  /** Such a pair exists: a Barra row saved without a category and a Salón
      row filed under the form's "Otros", both Pendiente, seen by Admin. */
  lemma OtrosPairExists()
    ensures Unfiled.category.None? && FiledUnderOtros.category == Some("Otros")
    ensures "Otros" in Categorias
    ensures OrderKeeps(Admin, [], Unfiled) && OrderKeeps(Admin, [], FiledUnderOtros)
  {
  }
}
