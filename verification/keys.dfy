/**
 Field names of the strain record and the key normalisation used to match an
 OCR'd label against them (main.py: `normalize_key` and `csv_columns`).
 */
module Keys {
  import opened Wrappers
  import opened Strings

  const Eacute: char := '\U{E9}'   // é
  const Iacute: char := '\U{ED}'   // í

  /** The seven CSV columns, in output order. The two long names are written
      as concatenations of short literals (so that the verifier evaluates their
      normal forms piece by piece); `ColumnNamesSpelled` shows the spelling. */
  const Columns: seq<string> :=
    [ "Origen" + " gen" + "\U{E9}tico", "Efecto", "Sabor",
      "Tipo" + " de" + " vari" + "edad", "THC", "CBD", "Tipo" ]

  lemma ColumnNamesSpelled()
    ensures Columns ==
      ["Origen gen\U{E9}tico", "Efecto", "Sabor", "Tipo de variedad", "THC", "CBD", "Tipo"]
  {
    assert Columns[0] == "Origen gen\U{E9}tico";
    assert Columns[3] == "Tipo de variedad";
  }

  /** Lower-case, drop every plain space, then fold `é` to `e` and `í` to `i`. */
  function NormalizeKey(key: string): (r: string)
    ensures ' ' !in r && Eacute !in r && Iacute !in r
    ensures forall c :: c in r ==> IsLower(c)
  {
    Replace(Replace(Replace(Lower(key), ' ', ""), Eacute, "e"), Iacute, "i")
  }

  /** The strings `NormalizeKey` can produce. */
  predicate IsNormalKey(s: string) {
    && ' ' !in s && Eacute !in s && Iacute !in s
    && forall c :: c in s ==> IsLower(c)
  }

  /** A key is left unchanged by normalisation exactly when it is already normal. */
  lemma NormalizeKeyFixedPoint(s: string)
    ensures NormalizeKey(s) == s <==> IsNormalKey(s)
  {
  }

  /** Normalising twice is normalising once. */
  lemma NormalizeKeyIdempotent(s: string)
    ensures NormalizeKey(NormalizeKey(s)) == NormalizeKey(s)
  {
    NormalizeKeyFixedPoint(NormalizeKey(s));
  }

  /** What `NormalizeKey` does to one character: the empty string for a
      space, otherwise the lower-cased character with `é`/`í` folded. */
  function NormalizeChar(c: char): string {
    var l := LowerChar(c);
    if l == ' ' then "" else if l == Eacute then "e" else if l == Iacute then "i" else [l]
  }

  /** A one-pass reference definition of key normalisation. */
  function NormalizeChars(s: string): string {
    if |s| == 0 then "" else NormalizeChar(s[0]) + NormalizeChars(s[1..])
  }

  /** Normalisation distributes over concatenation. */
  lemma NormalizeKeyConcat(a: string, b: string)
    ensures NormalizeKey(a + b) == NormalizeKey(a) + NormalizeKey(b)
  {
    LowerConcat(a, b);
    var l0 := Lower(a + b);
    ReplaceConcat(Lower(a), Lower(b), ' ', "");
    var l1a := Replace(Lower(a), ' ', "");
    var l1b := Replace(Lower(b), ' ', "");
    ReplaceConcat(l1a, l1b, Eacute, "e");
    var l2a := Replace(l1a, Eacute, "e");
    var l2b := Replace(l1b, Eacute, "e");
    ReplaceConcat(l2a, l2b, Iacute, "i");
  }

  lemma NormalizeKeySingle(c: char)
    ensures NormalizeKey([c]) == NormalizeChar(c)
  {
    var l := LowerChar(c);
    assert Lower([c]) == [l];
    var r1 := if l == ' ' then "" else [l];
    assert Replace([l], ' ', "") == r1 by {
      assert [l][1..] == [];
    }
    if l == ' ' {
    } else {
      var r2 := if l == Eacute then "e" else [l];
      assert Replace([l], Eacute, "e") == r2 by {
        assert [l][1..] == [];
      }
      assert Replace(r2, Iacute, "i") == NormalizeChar(c) by {
        assert r2[1..] == [];
      }
    }
  }

  /** The chained `lower`/`replace` pipeline equals the one-pass definition. */
  lemma {:induction false} NormalizeKeyIsPerChar(s: string)
    ensures NormalizeKey(s) == NormalizeChars(s)
  {
    if |s| == 0 {
      assert Lower(s) == [];
    } else {
      assert s == [s[0]] + s[1..];
      NormalizeKeyConcat([s[0]], s[1..]);
      NormalizeKeySingle(s[0]);
      NormalizeKeyIsPerChar(s[1..]);
    }
  }

  /** Only plain spaces are removed: any other character that is not an
      upper-case letter, `é` or `í` (a full stop, a percent sign, a hyphen)
      passes through normalisation unchanged. */
  lemma NormalizeKeyKeepsSymbol(s: string, c: char)
    requires LowerChar(c) == c && c != ' ' && c != Eacute && c != Iacute
    ensures NormalizeKey(s + [c]) == NormalizeKey(s) + [c]
  {
    NormalizeKeyConcat(s, [c]);
    NormalizeKeySingle(c);
  }

  lemma {:induction false} NormalizeCharsConcat(a: string, b: string)
    ensures NormalizeChars(a + b) == NormalizeChars(a) + NormalizeChars(b)
  {
    if |a| == 0 {
      assert a + b == b;
    } else {
      assert (a + b)[0] == a[0];
      assert (a + b)[1..] == a[1..] + b;
      NormalizeCharsConcat(a[1..], b);
    }
  }

  /** The normalised column names, in column order. */
  const ColumnKeys: seq<string> :=
    ["origengenetico", "efecto", "sabor", "tipodevariedad", "thc", "cbd", "tipo"]

  // Helper steps for `ColumnKeysComputed`, not properties of their own: the
  // long column names are normalised a few characters at a time and then
  // joined, because the verifier evaluates short literals reliably but not
  // long ones.

  lemma OrigenHead() ensures NormalizeChars("Origen") == "origen" {}
  lemma OrigenMiddle() ensures NormalizeChars(" gen") == "gen" {}
  lemma OrigenTail() ensures NormalizeChars("\U{E9}tico") == "etico" {}
  lemma VariedadHead() ensures NormalizeChars("Tipo") == "tipo" {}
  lemma VariedadMiddle() ensures NormalizeChars(" de") == "de" {}
  lemma VariedadTail() ensures NormalizeChars(" vari") == "vari" {}
  lemma VariedadEnd() ensures NormalizeChars("edad") == "edad" {}

  lemma OrigenPrefix()
    ensures NormalizeChars("Origen" + " gen") == "origengen"
  {
    OrigenHead();
    OrigenMiddle();
    NormalizeCharsConcat("Origen", " gen");
  }

  lemma OrigenChars()
    ensures NormalizeChars("Origen" + " gen" + "\U{E9}tico") == "origengenetico"
  {
    OrigenPrefix();
    OrigenTail();
    NormalizeCharsConcat("Origen" + " gen", "\U{E9}tico");
  }

  lemma OrigenKey()
    ensures NormalizeKey(Columns[0]) == ColumnKeys[0]
  {
    OrigenChars();
    NormalizeKeyIsPerChar(Columns[0]);
  }

  lemma VariedadPrefix()
    ensures NormalizeChars("Tipo" + " de" + " vari") == "tipodevari"
  {
    VariedadHead();
    VariedadMiddle();
    VariedadTail();
    NormalizeCharsConcat("Tipo", " de");
    NormalizeCharsConcat("Tipo" + " de", " vari");
  }

  lemma VariedadChars()
    ensures NormalizeChars("Tipo" + " de" + " vari" + "edad") == "tipodevariedad"
  {
    VariedadPrefix();
    VariedadEnd();
    NormalizeCharsConcat("Tipo" + " de" + " vari", "edad");
  }

  lemma VariedadKey()
    ensures NormalizeKey(Columns[3]) == ColumnKeys[3]
  {
    VariedadChars();
    NormalizeKeyIsPerChar(Columns[3]);
  }

  lemma EfectoKey() ensures NormalizeKey(Columns[1]) == ColumnKeys[1] {
    assert NormalizeChars(Columns[1]) == ColumnKeys[1];
    NormalizeKeyIsPerChar(Columns[1]);
  }

  lemma SaborKey() ensures NormalizeKey(Columns[2]) == ColumnKeys[2] {
    assert NormalizeChars(Columns[2]) == ColumnKeys[2];
    NormalizeKeyIsPerChar(Columns[2]);
  }

  lemma ThcKey() ensures NormalizeKey(Columns[4]) == ColumnKeys[4] {
    assert NormalizeChars(Columns[4]) == ColumnKeys[4];
    NormalizeKeyIsPerChar(Columns[4]);
  }

  lemma CbdKey() ensures NormalizeKey(Columns[5]) == ColumnKeys[5] {
    assert NormalizeChars(Columns[5]) == ColumnKeys[5];
    NormalizeKeyIsPerChar(Columns[5]);
  }

  lemma TipoKey() ensures NormalizeKey(Columns[6]) == ColumnKeys[6] {
    assert NormalizeChars(Columns[6]) == ColumnKeys[6];
    NormalizeKeyIsPerChar(Columns[6]);
  }

  /** Each column's normalised name. */
  lemma ColumnKey(i: nat)
    requires i < |Columns|
    ensures NormalizeKey(Columns[i]) == ColumnKeys[i]
  {
    if i == 0 { OrigenKey(); }
    else if i == 1 { EfectoKey(); }
    else if i == 2 { SaborKey(); }
    else if i == 3 { VariedadKey(); }
    else if i == 4 { ThcKey(); }
    else if i == 5 { CbdKey(); }
    else { TipoKey(); }
  }

  lemma ColumnKeysComputed()
    ensures |ColumnKeys| == |Columns|
    ensures forall i :: 0 <= i < |Columns| ==> NormalizeKey(Columns[i]) == ColumnKeys[i]
  {
    forall i | 0 <= i < |Columns| ensures NormalizeKey(Columns[i]) == ColumnKeys[i] {
      ColumnKey(i);
    }
  }

  /** A label with a trailing full stop keeps it, so it no longer has the
      normal form of the column it names. */
  lemma TrailingDotKept()
    ensures NormalizeKey("THC.") == "thc."
    ensures NormalizeKey("THC.") != NormalizeKey(Columns[4])
  {
    DotAfterThc("THC.");
    ThcKey();
    ThcKeyDotted();
  }

  lemma ThcKeyDotted()
    ensures ColumnKeys[4] + ['.'] == "thc."
    ensures |ColumnKeys[4]| == 3
  {
  }

  // The label is a parameter here, not a literal, so that the verifier does
  // not try to evaluate `NormalizeKey` on it character by character.
  lemma DotAfterThc(text: string)
    requires text == "THC."
    ensures NormalizeKey(text) == NormalizeKey(Columns[4]) + ['.']
  {
    assert text == Columns[4] + ['.'];
    NormalizeKeyKeepsSymbol(Columns[4], '.');
  }

  lemma DottedNotAColumnKey()
    ensures "thc." !in ColumnKeys
  {
  }

  lemma ColumnKeysUnique()
    ensures forall i, j :: (0 <= i < |ColumnKeys| && 0 <= j < |ColumnKeys|
                            && ColumnKeys[i] == ColumnKeys[j]) ==> i == j
  {
  }

  /** No two columns share a normalised name, so a key matches at most one column. */
  lemma ColumnKeysDistinct()
    ensures forall i, j :: (0 <= i < |Columns| && 0 <= j < |Columns|
                            && NormalizeKey(Columns[i]) == NormalizeKey(Columns[j])) ==> i == j
  {
    ColumnKeysComputed();
    ColumnKeysUnique();
  }
}

/**
 Looking an OCR'd label up among the columns: the `for col in csv_columns`
 loop with its `break` on the first column whose normalised name equals the
 normalised label.
 */
module Lookup {
  import opened Wrappers
  import opened Keys

  /** Index of the first entry of `cols` whose normalised name is `nk`. */
  function FirstMatch(cols: seq<string>, nk: string): (r: Option<nat>)
    ensures r.Some? ==> r.value < |cols| && NormalizeKey(cols[r.value]) == nk
    ensures r.Some? ==> forall j :: 0 <= j < r.value ==> NormalizeKey(cols[j]) != nk
    ensures r.None? ==> forall j :: 0 <= j < |cols| ==> NormalizeKey(cols[j]) != nk
  {
    if |cols| == 0 then None
    else if NormalizeKey(cols[0]) == nk then Some(0)
    else match FirstMatch(cols[1..], nk)
      case None => None
      case Some(i) => Some(i + 1)
  }

  /** The column a normalised label selects, searching in the given order. */
  function MatchIn(cols: seq<string>, nk: string): Option<string> {
    match FirstMatch(cols, nk)
    case None => None
    case Some(i) => Some(cols[i])
  }

  /** The column a normalised label selects in `csv_columns` order. */
  function MatchColumn(nk: string): Option<string> {
    MatchIn(Columns, nk)
  }

  /** A label selects column `c` exactly when `c` is a column whose normalised
      name is the normalised label: the loop's search order plays no part. */
  lemma MatchColumnSpec(nk: string, c: string)
    ensures MatchColumn(nk) == Some(c) <==> c in Columns && NormalizeKey(c) == nk
  {
    ColumnKeysDistinct();
    if c in Columns && NormalizeKey(c) == nk {
      var k :| 0 <= k < |Columns| && Columns[k] == c;
      var r := FirstMatch(Columns, nk);
      assert r.Some?;
      assert r.value == k;
    }
  }

  /** A label selects no column exactly when no column's normalised name equals it. */
  lemma MatchColumnNone(nk: string)
    ensures MatchColumn(nk).None? <==> nk !in ColumnKeys
  {
    ColumnKeysComputed();
    if nk in ColumnKeys {
      var k :| 0 <= k < |ColumnKeys| && ColumnKeys[k] == nk;
      assert NormalizeKey(Columns[k]) == nk;
    }
  }

  /** A label such as `THC.` matches no column, so the value on its line is
      dropped. */
  lemma SymbolLabelUnmatched()
    ensures MatchColumn(NormalizeKey("THC.")).None?
  {
    TrailingDotKept();
    MatchColumnNone("thc.");
    DottedNotAColumnKey();
  }

  /** Searching the columns in any other order (any sequence holding the same
      names) selects the same column. */
  lemma MatchOrderIrrelevant(cols: seq<string>, nk: string)
    requires forall c :: c in cols <==> c in Columns
    ensures MatchIn(cols, nk) == MatchColumn(nk)
  {
    if MatchColumn(nk).Some? {
      var c := MatchColumn(nk).value;
      MatchColumnSpec(nk, c);
      var k :| 0 <= k < |cols| && cols[k] == c;
      assert NormalizeKey(cols[k]) == nk;
      assert FirstMatch(cols, nk).Some?;
      var d := MatchIn(cols, nk).value;
      assert d in cols && NormalizeKey(d) == nk;
      MatchColumnSpec(nk, d);
      assert d == c;
    } else if MatchIn(cols, nk).Some? {
      var d := MatchIn(cols, nk).value;
      assert d in cols && NormalizeKey(d) == nk;
      MatchColumnSpec(nk, d);
    }
  }
}
