/** Chapter metadata trees: to and from dynamic values, and through JSON text. */
module ChapterMetadata {
  import opened Basics
  import opened RunPolicies

  /** A float64 is finite, infinite or not a number; finite ones are told apart by `bits`. */
  datatype Float = Finite(bits: int) | Infinite(negative: bool) | NotANumber

  datatype Kind = NullKind | BoolKind | IntKind | DoubleKind | StringKind | ListKind | MapKind | UnknownKind

  /** The source's struct: a kind and one field per kind, whether or not it is in use. */
  datatype Meta = Meta(kind: Kind, flag: bool, whole: int64, double: Float, text: string,
                       list: seq<Meta>, fields: map<string, Meta>)

  /** A dynamic Go value as these functions meet it. */
  datatype Any = Nil | Bool(flag: bool) | Number(text: string) | Int(whole: int64) | Uint(natural: nat) | Double(double: Float)
               | Str(text: string) | List(items: seq<Any>) | Map(fields: map<string, Any>)

  const ZERO := Finite(0)
  const BLANK := Meta(NullKind, false, 0, ZERO, "", [], map[])

  /** strconv on integer and float text, and what marshalling makes of a string: bytes that
      are not UTF-8 are replaced. */
  datatype Texts = Texts(ofInt: int64 -> string, toInt: string -> Option<int64>,
                         ofFloat: int -> string, toFloat: string -> Option<Float>, clean: string -> string)

  predicate Fractional(text: string) {
    exists c :: c in text && (c == '.' || c == 'e' || c == 'E')
  }

  /** Replacement text is valid, integer text is read back, and finite floats survive their
      shortest text. */
  ghost predicate Faithful(n: Texts) {
    && (forall s :: n.clean(n.clean(s)) == n.clean(s))
    && (forall i :: !Fractional(n.ofInt(i)) && n.toInt(n.ofInt(i)) == Some(i))
    && (forall b :: n.toFloat(n.ofFloat(b)) == Some(Finite(b)))
  }

  function FromFloat(f: Float): Option<Meta> {
    if f.Finite? then Some(BLANK.(kind := DoubleKind, double := f)) else None
  }

  function FromNumber(n: Texts, text: string): Option<Meta> {
    if !Fractional(text) && n.toInt(text).Some? then Some(BLANK.(kind := IntKind, whole := n.toInt(text).value))
    else if n.toFloat(text).None? then None
    else FromFloat(n.toFloat(text).value)
  }

  /** chapterMetadataValueFromAny; None is its error. */
  function FromAny(n: Texts, a: Any): Option<Meta>
    decreases a
  {
    match a
    case Nil => Some(BLANK)
    case Bool(b) => Some(BLANK.(kind := BoolKind, flag := b))
    case Str(s) => Some(BLANK.(kind := StringKind, text := s))
    case Number(t) => FromNumber(n, t)
    case Int(i) => Some(BLANK.(kind := IntKind, whole := i))
    case Uint(u) => if u > MAX_INT64 as int then None else Some(BLANK.(kind := IntKind, whole := u as int64))
    case Double(f) => FromFloat(f)
    case List(items) =>
      if forall i :: 0 <= i < |items| ==> FromAny(n, items[i]).Some?
      then Some(BLANK.(kind := ListKind, list := seq(|items|, i requires 0 <= i < |items| => FromAny(n, items[i]).value)))
      else None
    case Map(fields) =>
      if forall k :: k in fields ==> FromAny(n, fields[k]).Some?
      then Some(BLANK.(kind := MapKind, fields := map k | k in fields :: FromAny(n, fields[k]).value))
      else None
  }

  /** The same conversion filling its lists and maps element by element, first error out. */
  method ConvertFromAny(n: Texts, a: Any) returns (r: Option<Meta>)
    ensures r == FromAny(n, a)
    decreases a
  {
    match a {
      case List(items) =>
        var out: seq<Meta> := [];
        for i := 0 to |items|
          invariant |out| == i && forall k :: 0 <= k < i ==> FromAny(n, items[k]) == Some(out[k])
        {
          var item := ConvertFromAny(n, items[i]);
          if item.None? { return None; }
          out := out + [item.value];
        }
        r := Some(BLANK.(kind := ListKind, list := out));
        assert out == FromAny(n, a).value.list;
      case Map(fields) =>
        var out: map<string, Meta>, todo := map[], fields.Keys;
        while todo != {}
          invariant todo <= fields.Keys && out.Keys == fields.Keys - todo
          invariant forall k :: k in out ==> FromAny(n, fields[k]) == Some(out[k])
          decreases todo
        {
          var name :| name in todo;
          var item := ConvertFromAny(n, fields[name]);
          if item.None? { return None; }
          out, todo := out[name := item.value], todo - {name};
        }
        r := Some(BLANK.(kind := MapKind, fields := out));
        assert out == FromAny(n, a).value.fields;
      case _ => r := FromAny(n, a);
    }
  }

  /** chapterMetadataValueToAny; an unknown kind becomes nil. */
  function ToAny(v: Meta): Any
    decreases v
  {
    match v.kind
    case NullKind => Nil
    case BoolKind => Bool(v.flag)
    case IntKind => Int(v.whole)
    case DoubleKind => Double(v.double)
    case StringKind => Str(v.text)
    case ListKind => List(seq(|v.list|, i requires 0 <= i < |v.list| => ToAny(v.list[i])))
    case MapKind => Map(map k | k in v.fields :: ToAny(v.fields[k]))
    case UnknownKind => Nil
  }

  /** Only the field of its kind is in use, at every depth. */
  ghost predicate WellFormed(v: Meta)
    decreases v
  {
    match v.kind
    case NullKind => v == BLANK
    case BoolKind => v == BLANK.(kind := BoolKind, flag := v.flag)
    case IntKind => v == BLANK.(kind := IntKind, whole := v.whole)
    case DoubleKind => v == BLANK.(kind := DoubleKind, double := v.double)
    case StringKind => v == BLANK.(kind := StringKind, text := v.text)
    case ListKind => v == BLANK.(kind := ListKind, list := v.list) && forall i :: 0 <= i < |v.list| ==> WellFormed(v.list[i])
    case MapKind => v == BLANK.(kind := MapKind, fields := v.fields) && forall k :: k in v.fields ==> WellFormed(v.fields[k])
    case UnknownKind => false
  }

  /** No infinity and no NaN where a reader would look. */
  ghost predicate AllFinite(v: Meta)
    decreases v
  {
    match v.kind
    case DoubleKind => v.double.Finite?
    case ListKind => forall i :: 0 <= i < |v.list| ==> AllFinite(v.list[i])
    case MapKind => forall k :: k in v.fields ==> AllFinite(v.fields[k])
    case _ => true
  }

  /** The i-th part of a tree and of what came back for it. */
  ghost predicate PartBack(v: Meta, r: Option<Meta>) {
    && (r.Some? <==> AllFinite(v))
    && (r.Some? ==> WellFormed(r.value) && (WellFormed(v) ==> r.value == v))
  }

  /** A tree of any depth comes back from its dynamic form exactly when it is finite, and
      comes back unchanged exactly when it is also well formed. */
  lemma AnyRoundTrip(n: Texts, v: Meta)
    ensures FromAny(n, ToAny(v)).Some? <==> AllFinite(v)
    ensures FromAny(n, ToAny(v)) == Some(v) <==> AllFinite(v) && WellFormed(v)
  {
    ComesBack(n, v);
  }

  lemma {:induction false} ComesBack(n: Texts, v: Meta)
    ensures PartBack(v, FromAny(n, ToAny(v)))
    decreases v
  {
    match v.kind {
      case ListKind =>
        var a := ToAny(v);
        forall i | 0 <= i < |v.list| ensures PartBack(v.list[i], FromAny(n, a.items[i])) { ComesBack(n, v.list[i]); }
        ListBack(n, v, a);
      case MapKind =>
        var a := ToAny(v);
        forall k | k in v.fields ensures PartBack(v.fields[k], FromAny(n, a.fields[k])) { ComesBack(n, v.fields[k]); }
        MapBack(n, v, a);
      case _ =>
    }
  }

  lemma ListBack(n: Texts, v: Meta, a: Any)
    requires v.kind == ListKind && a == ToAny(v)
    requires forall i :: 0 <= i < |v.list| ==> PartBack(v.list[i], FromAny(n, a.items[i]))
    ensures PartBack(v, FromAny(n, a))
  {
    if AllFinite(v) && WellFormed(v) {
      assert FromAny(n, a).value.list == v.list;
    }
  }

  lemma FieldsBack(n: Texts, v: Meta, fields: map<string, Any>, back: map<string, Meta>)
    requires fields.Keys == back.Keys == v.fields.Keys && AllFinite(v) && v.kind == MapKind
    requires forall k :: k in v.fields ==> PartBack(v.fields[k], FromAny(n, fields[k]))
    requires forall k :: k in back ==> FromAny(n, fields[k]) == Some(back[k])
    ensures WellFormed(BLANK.(kind := MapKind, fields := back))
    ensures WellFormed(v) ==> back == v.fields
  {
    forall k | k in back ensures WellFormed(back[k]) { assert PartBack(v.fields[k], FromAny(n, fields[k])); }
    if WellFormed(v) {
      forall k | k in back ensures back[k] == v.fields[k] { assert PartBack(v.fields[k], FromAny(n, fields[k])); }
    }
  }

  lemma MapBack(n: Texts, v: Meta, a: Any)
    requires v.kind == MapKind && a.Map? && a.fields.Keys == v.fields.Keys
    requires forall k :: k in v.fields ==> PartBack(v.fields[k], FromAny(n, a.fields[k]))
    ensures PartBack(v, FromAny(n, a))
  {
    if AllFinite(v) {
      forall k | k in a.fields ensures FromAny(n, a.fields[k]).Some? { assert PartBack(v.fields[k], FromAny(n, a.fields[k])); }
      FieldsBack(n, v, a.fields, FromAny(n, a).value.fields);
    } else {
      var k :| k in v.fields && !AllFinite(v.fields[k]);
      assert PartBack(v.fields[k], FromAny(n, a.fields[k])) && k in a.fields;
    }
  }

  // ---- Through JSON text ---------------------------------------------------------------------

  /** json.Marshal followed by a decoder that keeps numbers as text. */
  function Reread(n: Texts, a: Any): Any
    decreases a
  {
    match a
    case Str(s) => Str(n.clean(s))
    case Int(i) => Number(n.ofInt(i))
    case Double(f) => if f.Finite? then Number(n.ofFloat(f.bits)) else Nil
    case List(items) => List(seq(|items|, i requires 0 <= i < |items| => Reread(n, items[i])))
    case Map(fields) => Map(map k | k in fields :: Reread(n, fields[k]))
    case _ => a
  }

  /** ChapterMetadataToJSON, then ChapterMetadataFromJSON; marshalling refuses non-finite floats. */
  ghost function Pass(n: Texts, v: Meta): Option<Meta> {
    if AllFinite(v) then FromAny(n, Reread(n, ToAny(v))) else None
  }

  /** What one pass makes of a tree: a float whose text is an integer becomes one, and text
      becomes valid. */
  function Normalize(n: Texts, v: Meta): Meta
    decreases v
  {
    match v.kind
    case NullKind => BLANK
    case BoolKind => BLANK.(kind := BoolKind, flag := v.flag)
    case IntKind => BLANK.(kind := IntKind, whole := v.whole)
    case DoubleKind =>
      if v.double.Finite? && IntegerText(n, v.double.bits)
      then BLANK.(kind := IntKind, whole := n.toInt(n.ofFloat(v.double.bits)).value)
      else BLANK.(kind := DoubleKind, double := v.double)
    case StringKind => BLANK.(kind := StringKind, text := n.clean(v.text))
    case ListKind => BLANK.(kind := ListKind, list := seq(|v.list|, i requires 0 <= i < |v.list| => Normalize(n, v.list[i])))
    case MapKind => BLANK.(kind := MapKind, fields := map k | k in v.fields :: Normalize(n, v.fields[k]))
    case UnknownKind => BLANK
  }

  predicate IntegerText(n: Texts, bits: int) {
    !Fractional(n.ofFloat(bits)) && n.toInt(n.ofFloat(bits)).Some?
  }

  lemma {:induction false} PassIs(n: Texts, v: Meta)
    requires Faithful(n) && AllFinite(v)
    ensures FromAny(n, Reread(n, ToAny(v))) == Some(Normalize(n, v))
    decreases v
  {
    match v.kind {
      case ListKind =>
        var a := Reread(n, ToAny(v));
        forall i | 0 <= i < |v.list| ensures FromAny(n, a.items[i]) == Some(Normalize(n, v.list[i])) {
          PassIs(n, v.list[i]);
        }
        assert FromAny(n, a).value.list == Normalize(n, v).list;
      case MapKind =>
        var a := Reread(n, ToAny(v));
        assert a.fields.Keys == v.fields.Keys;
        forall k | k in v.fields ensures FromAny(n, a.fields[k]) == Some(Normalize(n, v.fields[k])) {
          PassIs(n, v.fields[k]);
        }
        assert FromAny(n, a).value.fields == Normalize(n, v).fields;
      case _ =>
    }
  }

  lemma {:induction false} NormalizeKeeps(n: Texts, v: Meta)
    requires Faithful(n) && AllFinite(v)
    ensures AllFinite(Normalize(n, v)) && WellFormed(Normalize(n, v)) && Normalize(n, Normalize(n, v)) == Normalize(n, v)
    decreases v
  {
    var w := Normalize(n, v);
    match v.kind {
      case ListKind =>
        forall i | 0 <= i < |v.list|
          ensures AllFinite(w.list[i]) && WellFormed(w.list[i]) && Normalize(n, w.list[i]) == w.list[i]
        {
          NormalizeKeeps(n, v.list[i]);
        }
        assert Normalize(n, w).list == w.list;
      case MapKind =>
        forall k | k in v.fields
          ensures AllFinite(w.fields[k]) && WellFormed(w.fields[k]) && Normalize(n, w.fields[k]) == w.fields[k]
        {
          NormalizeKeeps(n, v.fields[k]);
        }
        assert Normalize(n, w).fields == w.fields;
      case _ =>
    }
  }

  /** One pass through JSON text reaches a normal form that every further pass keeps. */
  lemma OnePassSuffices(n: Texts, v: Meta)
    requires Faithful(n)
    ensures Pass(n, v).Some? <==> AllFinite(v)
    ensures Pass(n, v).Some? ==> Pass(n, Pass(n, v).value) == Pass(n, v)
  {
    if AllFinite(v) {
      PassIs(n, v);
      NormalizeKeeps(n, v);
      PassIs(n, Normalize(n, v));
    }
  }

  /** No float in the tree has the text of an int64, and no string is invalid. */
  ghost predicate Normal(n: Texts, v: Meta)
    decreases v
  {
    match v.kind
    case DoubleKind => v.double.Finite? && !IntegerText(n, v.double.bits)
    case StringKind => n.clean(v.text) == v.text
    case ListKind => forall i :: 0 <= i < |v.list| ==> Normal(n, v.list[i])
    case MapKind => forall k :: k in v.fields ==> Normal(n, v.fields[k])
    case _ => true
  }

  lemma {:induction false} NormalizeFixes(n: Texts, v: Meta)
    requires WellFormed(v) && AllFinite(v)
    ensures Normalize(n, v) == v <==> Normal(n, v)
    decreases v
  {
    var w := Normalize(n, v);
    match v.kind {
      case ListKind =>
        forall i | 0 <= i < |v.list| ensures w.list[i] == v.list[i] <==> Normal(n, v.list[i]) {
          NormalizeFixes(n, v.list[i]);
        }
        if Normal(n, v) { assert w.list == v.list; }
      case MapKind =>
        assert w.fields.Keys == v.fields.Keys;
        forall k | k in v.fields ensures w.fields[k] == v.fields[k] <==> Normal(n, v.fields[k]) {
          NormalizeFixes(n, v.fields[k]);
        }
        if Normal(n, v) { assert w.fields == v.fields; }
      case _ =>
    }
  }

  /** A well-formed tree is unchanged by a pass exactly when it has no integer-valued float
      and no invalid string. */
  lemma PassChangesIff(n: Texts, v: Meta)
    requires Faithful(n) && WellFormed(v) && AllFinite(v)
    ensures Pass(n, v) == Some(v) <==> Normal(n, v)
  {
    PassIs(n, v);
    NormalizeFixes(n, v);
  }
}
