/** Key resolution: the layer number inside a source identifier, the
    canonical model id, and the identifiers the scripts build for sources,
    explanations and activations. */
module Keys {
  import opened Base
  import opened Text

  /** `extract_layer_from_source`: the integer before the first `-`, or the
      whole field when it has none. A field that does not parse is the
      `ValueError` of `int()`. A `-` always cuts the text before it, so no
      field yields a negative layer. */
  function ExtractLayer(field: string): Result<nat>
  {
    if '-' in field then
      match ParseInt(BeforeFirst(field, '-'))
      case Some(n) => Ok(n)
      case None => Err("invalid literal for int()")
    else
      match ParseInt(field)
      case Some(n) => Ok(n)
      case None => Err("invalid literal for int()")
  }

  /** Whether or not the field holds a `-`, the layer is the integer parse of
      the text before the first `-`, and the field is rejected exactly when
      that text does not parse. */
  lemma ExtractLayerSpec(field: string)
    ensures ExtractLayer(field).Ok? ==> ParseInt(BeforeFirst(field, '-')) == Some(ExtractLayer(field).value as int)
    ensures ExtractLayer(field).Err? <==> ParseInt(BeforeFirst(field, '-')).None?
  {
  }

  /** The model-id cleaner: `/` and `_` become `-`, then ASCII letters are
      lower-cased. */
  function CleanModelId(raw: string): (r: string)
    ensures |r| == |raw|
    ensures forall i :: 0 <= i < |r| ==> r[i] != '/' && r[i] != '_' && !IsUpper(r[i])
    ensures forall i :: 0 <= i < |r| ==> (raw[i] == '/' || raw[i] == '_' ==> r[i] == '-')
    ensures forall i :: 0 <= i < |r| && raw[i] != '/' && raw[i] != '_' ==> r[i] == LowerChar(raw[i])
  {
    Lower(ReplaceChar(ReplaceChar(raw, '/', '-'), '_', '-'))
  }

  /** Cleaning an id that is already clean leaves it as it is. */
  lemma CleanModelIdIdempotent(raw: string)
    ensures CleanModelId(CleanModelId(raw)) == CleanModelId(raw)
  {
    var c := CleanModelId(raw);
    var cc := CleanModelId(c);
    forall i | 0 <= i < |c| ensures cc[i] == c[i] {
      assert c[i] != '/' && c[i] != '_' && !IsUpper(c[i]);
    }
  }

  lemma ParseDigits(n: nat)
    ensures ParseInt(NatToString(n)) == Some(n)
  {
    var d := NatToString(n);
    assert d[0] != '-' && d[0] != '+';
    NatToStringRoundTrip(n);
  }

  /** The layer is read back from any text that starts with its digits and
      a `-`. */
  lemma ExtractLayerOfJoin(layer: nat, rest: string)
    ensures ExtractLayer(NatToString(layer) + "-" + rest) == Ok(layer)
  {
    var digits := NatToString(layer);
    var field := digits + "-" + rest;
    assert field == digits + ['-'] + rest;
    assert field[|digits|] == '-';
    DigitsHaveNo(digits, '-');
    BeforeFirstOfJoin(digits, '-', rest);
    ParseDigits(layer);
  }

  /** A source id `"{layer}-{set}"`. */
  function SourceId(layer: nat, setName: string): string
  {
    NatToString(layer) + "-" + setName
  }

  /** The layer can be read back from a source id, and the id ends with
      `-{set}`. */
  lemma SourceIdSpec(layer: nat, setName: string)
    ensures ExtractLayer(SourceId(layer, setName)) == Ok(layer)
    ensures EndsWith(SourceId(layer, setName), "-" + setName)
  {
    ExtractLayerOfJoin(layer, setName);
  }

  lemma ExtractLayerExample()
    ensures ExtractLayer("20-realm-l20r-8x") == Ok(20)
    ensures ExtractLayer("7") == Ok(7)
    ensures ExtractLayer("-3").Err?
  {
    assert NatToString(20) == "20" by {
      assert NatToString(2) == "2";
    }
    assert "20-realm-l20r-8x" == NatToString(20) + "-" + "realm-l20r-8x";
    ExtractLayerOfJoin(20, "realm-l20r-8x");
    assert NatToString(7) == "7";
    ParseDigits(7);
    var g := "-3";
    assert g[0] == '-';
    assert BeforeFirst(g, '-') == [];
  }

  /** `local_{model}_{layer}_{index}`, the explanation id, built from the
      integer layer. */
  function ExplanationId(modelId: string, layer: nat, index: string): (id: string)
    ensures StartsWith(id, "local_" + modelId + "_") && EndsWith(id, "_" + index)
  {
    "local_" + modelId + "_" + NatToString(layer) + "_" + index
  }

  /** `act_{model}_{layer}_{index}_{i}_{j}`: the streaming activation id, with
      the file position `i` and the line position `j`. */
  function ActivationId(modelId: string, layer: nat, index: string, i: nat, j: nat): (id: string)
    ensures StartsWith(id, "act_" + modelId + "_")
  {
    "act_" + modelId + "_" + NatToString(layer) + "_" + index + "_" + NatToString(i) + "_" + NatToString(j)
  }

  /** `act_{model}_{layer}_{index}`: the activation id of the older uploader,
      without a file or line position. */
  function LegacyActivationId(modelId: string, layer: nat, index: string): string
  {
    "act_" + modelId + "_" + NatToString(layer) + "_" + index
  }

  lemma CancelPrefix(p: string, x: string, y: string)
    requires p + x == p + y
    ensures x == y
  {
    assert x == (p + x)[|p|..];
    assert y == (p + y)[|p|..];
  }

  /** A separator that occurs in neither head splits a joined text in one
      place only. */
  lemma SplitAtFirst(a: string, b: string, c: char, s: string, t: string)
    requires c !in a && c !in b
    requires a + [c] + s == b + [c] + t
    ensures a == b && s == t
  {
    BeforeFirstOfJoin(a, c, s);
    BeforeFirstOfJoin(b, c, t);
    CancelPrefix(a + [c], s, t);
  }

  /** A separator absent from the right tail sits no further left than
      the one of the other split. */
  lemma SeparatorOrder(s: string, t: string, c: char, a: string, b: string)
    requires c !in b
    requires s + [c] + a == t + [c] + b
    ensures |s| <= |t|
  {
    var u := t + [c] + b;
    assert (s + [c] + a)[|s|] == c;
    assert forall k :: |t| < k < |u| ==> u[k] == b[k - |t| - 1];
  }

  /** The same from the right: a separator in neither tail. */
  lemma SplitAtLast(s: string, t: string, c: char, a: string, b: string)
    requires c !in a && c !in b
    requires s + [c] + a == t + [c] + b
    ensures a == b && s == t
  {
    SeparatorOrder(s, t, c, a, b);
    SeparatorOrder(t, s, c, b, a);
    var u := s + [c] + a;
    assert s == u[..|s|];
    assert t == (t + [c] + b)[..|t|];
    assert a == u[|s| + 1..];
    assert b == (t + [c] + b)[|t| + 1..];
  }

  /** Within one model, distinct (layer, index) pairs get distinct
      explanation ids, so `ON CONFLICT (id)` only merges a feature with
      itself. */
  lemma ExplanationIdInjective(modelId: string, l1: nat, x1: string, l2: nat, x2: string)
    requires ExplanationId(modelId, l1, x1) == ExplanationId(modelId, l2, x2)
    ensures l1 == l2 && x1 == x2
  {
    var p := "local_" + modelId + "_";
    var d1, d2 := NatToString(l1), NatToString(l2);
    assert ExplanationId(modelId, l1, x1) == p + (d1 + ['_'] + x1);
    assert ExplanationId(modelId, l2, x2) == p + (d2 + ['_'] + x2);
    CancelPrefix(p, d1 + ['_'] + x1, d2 + ['_'] + x2);
    DigitsHaveNo(d1, '_');
    DigitsHaveNo(d2, '_');
    SplitAtFirst(d1, d2, '_', x1, x2);
    NatToStringInjective(l1, l2);
  }

  /** Within one model, the streaming activation id determines the layer,
      the index and the (file, line) position it was built from; in
      particular two positions of one run never share an id. */
  lemma ActivationIdInjective(modelId: string, l1: nat, x1: string, i1: nat, j1: nat,
                                               l2: nat, x2: string, i2: nat, j2: nat)
    requires ActivationId(modelId, l1, x1, i1, j1) == ActivationId(modelId, l2, x2, i2, j2)
    ensures l1 == l2 && x1 == x2 && i1 == i2 && j1 == j2
  {
    var p := "act_" + modelId + "_";
    var d1, d2 := NatToString(l1), NatToString(l2);
    var a1, a2 := NatToString(i1), NatToString(i2);
    var b1, b2 := NatToString(j1), NatToString(j2);
    var r1 := x1 + ['_'] + a1 + ['_'] + b1;
    var r2 := x2 + ['_'] + a2 + ['_'] + b2;
    ActivationIdShape(modelId, l1, x1, i1, j1);
    ActivationIdShape(modelId, l2, x2, i2, j2);
    CancelPrefix(p, d1 + ['_'] + r1, d2 + ['_'] + r2);
    DigitsHaveNo(d1, '_');
    DigitsHaveNo(d2, '_');
    SplitAtFirst(d1, d2, '_', r1, r2);
    NatToStringInjective(l1, l2);
    PositionInjective(x1, i1, j1, x2, i2, j2);
  }

  /** A streaming activation id is the model prefix, the layer, and the rest
      after the first underscore that follows the layer. */
  lemma ActivationIdShape(modelId: string, l: nat, x: string, i: nat, j: nat)
    ensures ActivationId(modelId, l, x, i, j)
         == "act_" + modelId + "_" + (NatToString(l) + ['_'] + (x + ['_'] + NatToString(i) + ['_'] + NatToString(j)))
  {
    var p, d := "act_" + modelId + "_", NatToString(l);
    var a, b := NatToString(i), NatToString(j);
    calc {
      ActivationId(modelId, l, x, i, j);
      p + d + "_" + x + "_" + a + "_" + b;
      { SeqAssoc5(p, d + ['_'], x, ['_'] + a, ['_'] + b); }
      p + (d + ['_'] + (x + ['_'] + a + ['_'] + b));
    }
  }

  lemma SeqAssoc5(p: string, q: string, r: string, s: string, t: string)
    ensures p + q + r + s + t == p + (q + (r + s + t))
  {
  }

  /** The part of a streaming activation id after the layer determines the
      index and the (file, line) position. */
  lemma PositionInjective(x1: string, i1: nat, j1: nat, x2: string, i2: nat, j2: nat)
    requires x1 + ['_'] + NatToString(i1) + ['_'] + NatToString(j1) == x2 + ['_'] + NatToString(i2) + ['_'] + NatToString(j2)
    ensures x1 == x2 && i1 == i2 && j1 == j2
  {
    var a1, a2 := NatToString(i1), NatToString(i2);
    var b1, b2 := NatToString(j1), NatToString(j2);
    DigitsHaveNo(a1, '_');
    DigitsHaveNo(a2, '_');
    DigitsHaveNo(b1, '_');
    DigitsHaveNo(b2, '_');
    SplitAtLast(x1 + ['_'] + a1, x2 + ['_'] + a2, '_', b1, b2);
    SplitAtLast(x1, x2, '_', a1, a2);
    NatToStringInjective(i1, i2);
    NatToStringInjective(j1, j2);
  }
}
