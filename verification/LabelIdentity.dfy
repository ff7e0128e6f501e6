/**
 The binary identity of a series, src/label.rs, for metrics and labels that src/validation.rs
 accepts. Text is its UTF-8 bytes; whether bytes are UTF-8 is a parameter.
 */
module LabelIdentity {
  import opened Common
  import opened Sorting
  import opened TopK
  import opened Varint

  type Text = seq<Byte>

  const MAX_U16: nat := 65535
  const MAX_LABEL_NAME_LEN: nat := 256
  const MAX_LABEL_VALUE_LEN: nat := 16384

  datatype Label = Label(name: Text, value: Text)

  datatype IdentityError = Malformed | Utf8

  // ----- Order of labels -----

  function LabelLess(a: Label, b: Label): bool {
    TextLess(a.name, b.name) || (a.name == b.name && TextLess(a.value, b.value))
  }

  lemma {:induction false} TextIrreflexive(a: Text)
    ensures !TextLess(a, a)
    decreases |a|
  {
    if a != [] {
      TextIrreflexive(a[1..]);
    }
  }

  lemma {:induction false} TextTransitive(a: Text, b: Text, c: Text)
    requires TextLess(a, b) && TextLess(b, c)
    ensures TextLess(a, c)
    decreases |a|
  {
    if a != [] && a[0] == b[0] == c[0] {
      TextTransitive(a[1..], b[1..], c[1..]);
    }
  }

  lemma {:induction false} TextTotal(a: Text, b: Text)
    ensures a == b || TextLess(a, b) || TextLess(b, a)
    decreases |a|
  {
    if a != [] && b != [] && a[0] == b[0] {
      TextTotal(a[1..], b[1..]);
      assert a == [a[0]] + a[1..] && b == [b[0]] + b[1..];
    }
  }

  lemma LabelOrder()
    ensures StrictTotal(LabelLess)
  {
    forall a: Label ensures !LabelLess(a, a) {
      TextIrreflexive(a.name);
      TextIrreflexive(a.value);
    }
    forall a, b, c | LabelLess(a, b) && LabelLess(b, c) ensures LabelLess(a, c) {
      if TextLess(a.name, b.name) && TextLess(b.name, c.name) {
        TextTransitive(a.name, b.name, c.name);
      } else if a.name == b.name == c.name {
        TextTransitive(a.value, b.value, c.value);
      }
    }
    forall a, b ensures a == b || LabelLess(a, b) || LabelLess(b, a) {
      TextTotal(a.name, b.name);
      TextTotal(a.value, b.value);
    }
  }

  // ----- Marshalling -----

  function Prefix(t: Text): (p: Text)
    ensures |p| <= MAX_U16
  {
    if |t| <= MAX_U16 then t else t[..MAX_U16]
  }

  /** A length as two little-endian bytes, then the text. */
  function Field(t: Text): seq<Byte> {
    var p := Prefix(t);
    [|p| % 256, |p| / 256] + p
  }

  predicate IsValid(l: Label) {
    l.name != []
  }

  function LabelBytes(l: Label): seq<Byte> {
    if IsValid(l) then Field(l.name) + Field(l.value) else []
  }

  function LabelsBytes(labels: seq<Label>): seq<Byte> {
    if labels == [] then [] else LabelBytes(labels[0]) + LabelsBytes(labels[1..])
  }

  /** `marshal_metric_name` */
  function Marshal(metric: Text, labels: seq<Label>): seq<Byte> {
    Field(metric) + LabelsBytes(Sort(LabelLess, labels))
  }

  /** The loop that appends to the output buffer. */
  method MarshalMetricName(metric: Text, labels: seq<Label>) returns (out: seq<Byte>)
    ensures out == Marshal(metric, labels)
  {
    var sorted := Sort(LabelLess, labels);
    out := Field(metric);
    for i := 0 to |sorted|
      invariant out + LabelsBytes(sorted[i..]) == Marshal(metric, labels)
    {
      LabelsBytesStep(out, sorted, i);
      if IsValid(sorted[i]) {
        out := out + (Field(sorted[i].name) + Field(sorted[i].value));
      }
    }
  }

  lemma LabelsBytesStep(out: seq<Byte>, labels: seq<Label>, i: nat)
    requires i < |labels|
    ensures out + LabelsBytes(labels[i..]) == out + LabelBytes(labels[i]) + LabelsBytes(labels[i + 1..])
    ensures !IsValid(labels[i]) ==> out + LabelBytes(labels[i]) == out
  {
    assert labels[i..][1..] == labels[i + 1..];
  }

  // ----- Unmarshalling -----

  /** The text of the field at `pos` and the position after it. */
  function ReadField(bytes: seq<Byte>, pos: nat, utf8: Text -> bool): (r: Result<Decoded<Text>, IdentityError>)
    ensures r.Ok? ==> pos + 2 <= r.value.pos <= |bytes|
  {
    if pos + 2 > |bytes| then Err(Malformed)
    else
      var low: nat, high: nat := bytes[pos], bytes[pos + 1];
      var len := low + 256 * high;
      if pos + 2 + len > |bytes| then Err(Malformed)
      else
        var text := bytes[pos + 2..pos + 2 + len];
        if utf8(text) then Ok(Decoded(text, pos + 2 + len)) else Err(Utf8)
  }

  /** A length of zero where a name should be is an error even before the bounds are checked. */
  function ReadName(bytes: seq<Byte>, pos: nat, utf8: Text -> bool): (r: Result<Decoded<Text>, IdentityError>)
    ensures r.Ok? ==> pos + 2 <= r.value.pos <= |bytes|
  {
    if pos + 2 <= |bytes| && bytes[pos] == 0 && bytes[pos + 1] == 0 then Err(Malformed)
    else ReadField(bytes, pos, utf8)
  }

  function ReadLabel(bytes: seq<Byte>, pos: nat, utf8: Text -> bool): (r: Result<Decoded<Label>, IdentityError>)
    ensures r.Ok? ==> pos < r.value.pos <= |bytes|
  {
    var name :- ReadName(bytes, pos, utf8);
    var value :- ReadField(bytes, name.pos, utf8);
    Ok(Decoded(Label(name.value, value.value), value.pos))
  }

  function ReadLabels(bytes: seq<Byte>, pos: nat, utf8: Text -> bool): Result<seq<Label>, IdentityError>
    decreases |bytes| - pos
  {
    if pos >= |bytes| then Ok([])
    else
      var l :- ReadLabel(bytes, pos, utf8);
      var rest :- ReadLabels(bytes, l.pos, utf8);
      Ok([l.value] + rest)
  }

  /** `unmarshal_metric_name` */
  function Unmarshal(bytes: seq<Byte>, utf8: Text -> bool): Result<(Text, seq<Label>), IdentityError> {
    var metric :- ReadField(bytes, 0, utf8);
    var labels :- ReadLabels(bytes, metric.pos, utf8);
    Ok((metric.value, labels))
  }

  /** The decoding loop with its advancing position. */
  method UnmarshalMetricName(bytes: seq<Byte>, utf8: Text -> bool) returns (r: Result<(Text, seq<Label>), IdentityError>)
    ensures r == Unmarshal(bytes, utf8)
  {
    var metric :- ReadField(bytes, 0, utf8);
    var pos, labels := metric.pos, [];
    PrependNothing(ReadLabels(bytes, pos, utf8));
    while pos < |bytes|
      invariant metric.pos <= pos
      invariant ReadLabels(bytes, metric.pos, utf8) == Prepended(labels, ReadLabels(bytes, pos, utf8))
      decreases |bytes| - pos
    {
      var l := ReadLabel(bytes, pos, utf8);
      if l.Err? {
        return Err(l.error);
      }
      assert ReadLabels(bytes, pos, utf8)
          == (var rest := ReadLabels(bytes, l.value.pos, utf8); if rest.Err? then rest else Ok([l.value.value] + rest.value));
      PrependedStep(labels, l.value.value, ReadLabels(bytes, l.value.pos, utf8));
      pos, labels := l.value.pos, labels + [l.value.value];
    }
    assert labels + [] == labels;
    return Ok((metric.value, labels));
  }

  lemma PrependNothing(rest: Result<seq<Label>, IdentityError>)
    ensures Prepended([], rest) == rest
  {
    if rest.Ok? {
      assert [] + rest.value == rest.value;
    }
  }

  function Prepended(labels: seq<Label>, rest: Result<seq<Label>, IdentityError>): Result<seq<Label>, IdentityError> {
    if rest.Err? then rest else Ok(labels + rest.value)
  }

  lemma PrependedStep(labels: seq<Label>, l: Label, rest: Result<seq<Label>, IdentityError>)
    ensures Prepended(labels, if rest.Err? then rest else Ok([l] + rest.value)) == Prepended(labels + [l], rest)
  {
    if rest.Ok? {
      assert labels + ([l] + rest.value) == labels + [l] + rest.value;
    }
  }

  // ----- Round trip -----

  /** `part` stands at `pos`. */
  ghost predicate Stands(bytes: seq<Byte>, pos: nat, part: seq<Byte>) {
    pos + |part| <= |bytes| && bytes[pos..pos + |part|] == part
  }

  lemma StandsSplit(bytes: seq<Byte>, pos: nat, a: seq<Byte>, b: seq<Byte>)
    requires Stands(bytes, pos, a + b)
    ensures Stands(bytes, pos, a) && Stands(bytes, pos + |a|, b)
  {
    var both := bytes[pos..pos + |a + b|];
    assert bytes[pos..pos + |a|] == both[..|a|] == a;
    assert bytes[pos + |a|..pos + |a| + |b|] == both[|a|..] == b;
  }

  lemma FieldRoundTrip(bytes: seq<Byte>, pos: nat, t: Text, utf8: Text -> bool)
    requires |t| <= MAX_U16 && utf8(t) && Stands(bytes, pos, Field(t))
    ensures ReadField(bytes, pos, utf8) == Ok(Decoded(t, pos + |Field(t)|))
    ensures t != [] ==> ReadName(bytes, pos, utf8) == Ok(Decoded(t, pos + |Field(t)|))
  {
    var lens := [|t| % 256, |t| / 256];
    StandsSplit(bytes, pos, lens, t);
    assert bytes[pos] == bytes[pos..pos + 2][0] && bytes[pos + 1] == bytes[pos..pos + 2][1];
  }

  /** What a label must be to be read back. */
  ghost predicate Readable(l: Label, utf8: Text -> bool) {
    l.name != [] && |l.name| <= MAX_U16 && |l.value| <= MAX_U16 && utf8(l.name) && utf8(l.value)
  }

  lemma LabelRoundTrip(bytes: seq<Byte>, pos: nat, l: Label, utf8: Text -> bool)
    requires Readable(l, utf8) && Stands(bytes, pos, LabelBytes(l))
    ensures ReadLabel(bytes, pos, utf8) == Ok(Decoded(l, pos + |LabelBytes(l)|))
  {
    StandsSplit(bytes, pos, Field(l.name), Field(l.value));
    FieldRoundTrip(bytes, pos, l.name, utf8);
    FieldRoundTrip(bytes, pos + |Field(l.name)|, l.value, utf8);
  }

  lemma LabelReads(before: seq<Byte>, l: Label, after: seq<Byte>, bytes: seq<Byte>, utf8: Text -> bool)
    requires Readable(l, utf8) && bytes == before + LabelBytes(l) + after
    ensures |before| < |bytes| && ReadLabel(bytes, |before|, utf8) == Ok(Decoded(l, |before + LabelBytes(l)|))
  {
    StandsBetween(before, LabelBytes(l), after, bytes);
    LabelRoundTrip(bytes, |before|, l, utf8);
  }

  lemma StandsBetween(before: seq<Byte>, part: seq<Byte>, after: seq<Byte>, bytes: seq<Byte>)
    requires bytes == before + part + after
    ensures Stands(bytes, |before|, part)
  {
  }

  lemma ReadLabelsStep(bytes: seq<Byte>, pos: nat, l: Label, next: nat, rest: seq<Label>, utf8: Text -> bool)
    requires pos < |bytes| && ReadLabel(bytes, pos, utf8) == Ok(Decoded(l, next)) && ReadLabels(bytes, next, utf8) == Ok(rest)
    ensures ReadLabels(bytes, pos, utf8) == Ok([l] + rest)
  {
  }

  lemma {:induction false} LabelsRoundTrip(before: seq<Byte>, labels: seq<Label>, bytes: seq<Byte>, utf8: Text -> bool)
    requires AllReadable(labels, utf8) && bytes == before + LabelsBytes(labels)
    ensures ReadLabels(bytes, |before|, utf8) == Ok(labels)
    decreases |labels|
  {
    if labels != [] {
      var l, rest := labels[0], labels[1..];
      AllReadableRest(labels, utf8);
      Regroup(before, LabelBytes(l), LabelsBytes(rest));
      LabelsRoundTrip(before + LabelBytes(l), rest, bytes, utf8);
      FirstLabelReads(before, l, rest, LabelsBytes(rest), bytes, utf8);
      assert labels == [l] + rest;
    }
  }

  lemma FirstLabelReads(before: seq<Byte>, l: Label, rest: seq<Label>, after: seq<Byte>, bytes: seq<Byte>, utf8: Text -> bool)
    requires Readable(l, utf8) && bytes == before + LabelBytes(l) + after
    requires ReadLabels(bytes, |before + LabelBytes(l)|, utf8) == Ok(rest)
    ensures ReadLabels(bytes, |before|, utf8) == Ok([l] + rest)
  {
    LabelReads(before, l, after, bytes, utf8);
    ReadLabelsStep(bytes, |before|, l, |before + LabelBytes(l)|, rest, utf8);
  }

  lemma Regroup(a: seq<Byte>, b: seq<Byte>, c: seq<Byte>)
    ensures a + (b + c) == a + b + c
  {
  }

  ghost predicate AllReadable(labels: seq<Label>, utf8: Text -> bool) {
    forall k :: 0 <= k < |labels| ==> Readable(labels[k], utf8)
  }

  lemma AllReadableRest(labels: seq<Label>, utf8: Text -> bool)
    requires AllReadable(labels, utf8) && labels != []
    ensures Readable(labels[0], utf8) && AllReadable(labels[1..], utf8)
  {
  }

  /** `validate_metric` and `validate_labels` accept, and the texts are text. */
  ghost predicate Validated(metric: Text, labels: seq<Label>, utf8: Text -> bool) {
    && 1 <= |metric| <= MAX_U16 && utf8(metric)
    && (forall k :: 0 <= k < |labels| ==>
          && 1 <= |labels[k].name| <= MAX_LABEL_NAME_LEN && |labels[k].value| <= MAX_LABEL_VALUE_LEN
          && utf8(labels[k].name) && utf8(labels[k].value))
    && (forall j, k :: 0 <= j < k < |labels| ==> labels[j].name != labels[k].name)
  }

  /** Unmarshalling a marshalled identity gives the metric and the labels in sorted order. */
  lemma IdentityRoundTrip(metric: Text, labels: seq<Label>, utf8: Text -> bool)
    requires Validated(metric, labels, utf8)
    ensures Unmarshal(Marshal(metric, labels), utf8) == Ok((metric, Sort(LabelLess, labels)))
  {
    SortedReadable(metric, labels, utf8);
    MarshalledReads(metric, Sort(LabelLess, labels), Marshal(metric, labels), utf8);
  }

  lemma SortedReadable(metric: Text, labels: seq<Label>, utf8: Text -> bool)
    requires Validated(metric, labels, utf8)
    ensures AllReadable(Sort(LabelLess, labels), utf8)
  {
    var sorted := Sort(LabelLess, labels);
    SortPermutes(LabelLess, labels);
    forall k | 0 <= k < |sorted| ensures Readable(sorted[k], utf8) {
      assert sorted[k] in multiset(sorted);
      assert sorted[k] in labels;
    }
  }

  lemma MarshalledReads(metric: Text, sorted: seq<Label>, bytes: seq<Byte>, utf8: Text -> bool)
    requires |metric| <= MAX_U16 && utf8(metric) && AllReadable(sorted, utf8)
    requires bytes == Field(metric) + LabelsBytes(sorted)
    ensures Unmarshal(bytes, utf8) == Ok((metric, sorted))
  {
    assert Stands(bytes, 0, Field(metric));
    FieldRoundTrip(bytes, 0, metric, utf8);
    LabelsRoundTrip(Field(metric), sorted, bytes, utf8);
  }

  /** Two series have the same identity exactly when metrics agree and labels are permutations. */
  lemma IdentityExact(m1: Text, l1: seq<Label>, m2: Text, l2: seq<Label>, utf8: Text -> bool)
    requires Validated(m1, l1, utf8) && Validated(m2, l2, utf8)
    ensures Marshal(m1, l1) == Marshal(m2, l2) <==> m1 == m2 && multiset(l1) == multiset(l2)
  {
    if Marshal(m1, l1) == Marshal(m2, l2) {
      IdentityRoundTrip(m1, l1, utf8);
      IdentityRoundTrip(m2, l2, utf8);
      SortPermutes(LabelLess, l1);
      SortPermutes(LabelLess, l2);
    } else if m1 == m2 && multiset(l1) == multiset(l2) {
      LabelOrder();
      SortForgetsOrder(LabelLess, l1, l2);
    }
  }

  // ----- Hex keys -----

  /** The digits of `canonical_series_identity_key`, each below sixteen. */
  function Hex(bytes: seq<Byte>): Text {
    if bytes == [] then [] else Hex(bytes[..|bytes| - 1]) + [bytes[|bytes| - 1] / 16, bytes[|bytes| - 1] % 16]
  }

  lemma {:induction false} HexInjective(a: seq<Byte>, b: seq<Byte>)
    requires Hex(a) == Hex(b)
    ensures a == b
    decreases |a|
  {
    HexLength(a);
    HexLength(b);
    if a != [] {
      HexLast(a);
      HexLast(b);
      HexInjective(a[..|a| - 1], b[..|b| - 1]);
      assert a == a[..|a| - 1] + [a[|a| - 1]] && b == b[..|b| - 1] + [b[|b| - 1]];
    }
  }

  lemma HexLast(a: seq<Byte>)
    requires a != []
    ensures
      var h, x := Hex(a), a[|a| - 1];
      |h| >= 2 && h[..|h| - 2] == Hex(a[..|a| - 1]) && h[|h| - 2] == x / 16 && h[|h| - 1] == x % 16
    ensures a[|a| - 1] == 16 * (a[|a| - 1] / 16) + a[|a| - 1] % 16
  {
  }

  lemma {:induction false} HexLength(a: seq<Byte>)
    ensures |Hex(a)| == 2 * |a|
    decreases |a|
  {
    if a != [] {
      HexLength(a[..|a| - 1]);
    }
  }

  /** The same holds of the string keys. */
  lemma IdentityKeyExact(m1: Text, l1: seq<Label>, m2: Text, l2: seq<Label>, utf8: Text -> bool)
    requires Validated(m1, l1, utf8) && Validated(m2, l2, utf8)
    ensures Hex(Marshal(m1, l1)) == Hex(Marshal(m2, l2)) <==> m1 == m2 && multiset(l1) == multiset(l2)
  {
    IdentityExact(m1, l1, m2, l2, utf8);
    if Hex(Marshal(m1, l1)) == Hex(Marshal(m2, l2)) {
      HexInjective(Marshal(m1, l1), Marshal(m2, l2));
    }
  }

  // ----- Validation -----

  datatype LabelError = Duplicate | EmptyName | TooLong

  ghost predicate Acceptable(labels: seq<Label>) {
    && (forall k :: 0 <= k < |labels| ==>
          1 <= |labels[k].name| <= MAX_LABEL_NAME_LEN && |labels[k].value| <= MAX_LABEL_VALUE_LEN)
    && (forall j, k :: 0 <= j < k < |labels| ==> labels[j].name != labels[k].name)
  }

  /** `validate_labels`: one pass over a growing set of names decides exactly this. */
  method ValidateLabels(labels: seq<Label>) returns (error: Option<LabelError>)
    ensures error.None? <==> Acceptable(labels)
  {
    var seen := {};
    for k := 0 to |labels|
      invariant Acceptable(labels[..k])
      invariant forall name :: name in seen <==> exists j :: 0 <= j < k && labels[j].name == name
    {
      var l := labels[k];
      assert forall j :: 0 <= j < k ==> labels[..k][j] == labels[j];
      if l.name in seen {
        return Some(Duplicate);
      }
      if l.name == [] {
        return Some(EmptyName);
      }
      if |l.name| > MAX_LABEL_NAME_LEN || |l.value| > MAX_LABEL_VALUE_LEN {
        return Some(TooLong);
      }
      assert Acceptable(labels[..k + 1]) by {
        forall j | 0 <= j < k ensures labels[j].name != l.name {
        }
      }
      seen := seen + {l.name};
    }
    assert labels[..|labels|] == labels;
    return None;
  }
}
