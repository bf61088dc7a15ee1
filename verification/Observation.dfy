/** The observation an AI proposal is bound to, and its canonical bytes. */
module Observation {
  import opened Base
  import opened Encoding
  import opened Order

  datatype PathMode = Full | Basename | Redacted

  datatype Observed = Observed(
    scanId: int,
    candidateKey: Bytes,
    path: Bytes,
    mode: PathMode,
    size: nat,
    age: Option<nat>,
    labels: seq<Bytes>,
    classification: Option<Bytes>,
    matchedRule: Option<Bytes>,
    protected: bool,
    maxRisk: Bytes,
    adapter: Option<Bytes>)

  predicate AddressableText(t: Option<Bytes>) {
    t.Some? ==> Addressable(t.value)
  }

  /** The machine types of the fields. */
  predicate WellTyped(o: Observed) {
    && -TWO_64 / 2 <= o.scanId < TWO_64 / 2
    && o.size < TWO_64 && (o.age.Some? ==> o.age.value < TWO_64)
    && Addressable(o.candidateKey) && Addressable(o.path) && Addressable(o.maxRisk)
    && |o.labels| < TWO_64 && (forall l | l in o.labels :: Addressable(l))
    && AddressableText(o.classification) && AddressableText(o.matchedRule) && AddressableText(o.adapter)
  }

  // The frames, in order

  const TAG: Bytes := Text("tidyfs-ai-observation-v1")
  const SOME := Text("some")
  const NONE := Text("none")

  function ModeText(m: PathMode): Bytes {
    match m
    case Full => Text("full")
    case Basename => Text("basename")
    case Redacted => Text("redacted")
  }

  function OptionalText(t: Option<Bytes>): seq<Bytes> {
    if t.Some? then [SOME, t.value] else [NONE]
  }

  function OptionalU64(v: Option<nat>): seq<Bytes> {
    OptionalText(if v.Some? then Some(Be64(v.value)) else None)
  }

  function Counted(labels: seq<Bytes>): seq<Bytes> {
    [Be64(|labels|)] + labels
  }

  function Head(o: Observed): seq<Bytes>
    requires -TWO_64 / 2 <= o.scanId
  {
    [TAG, Be64(o.scanId), o.candidateKey, o.path, ModeText(o.mode), Be64(o.size)]
  }

  function Facts(o: Observed): seq<Bytes> {
    OptionalText(o.classification) + (OptionalText(o.matchedRule) +
      ([[if o.protected then 1 else 0], o.maxRisk] + OptionalText(o.adapter)))
  }

  function Fields(o: Observed): seq<Bytes>
    requires -TWO_64 / 2 <= o.scanId
  {
    Head(o) + (OptionalU64(o.age) + (Counted(Ascend(o.labels)) + Facts(o)))
  }

  function Frames(fields: seq<Bytes>): Bytes {
    if fields == [] then [] else Frame(fields[0]) + Frames(fields[1..])
  }

  function CanonicalForm(o: Observed): Bytes
    requires -TWO_64 / 2 <= o.scanId
  {
    Frames(Fields(o))
  }

  lemma {:induction false} FramesAppend(a: seq<Bytes>, b: seq<Bytes>)
    ensures Frames(a + b) == Frames(a) + Frames(b)
  {
    if a == [] {
      assert a + b == b;
    } else {
      FramesAppend(a[1..], b);
      assert (a + b)[1..] == a[1..] + b;
    }
  }

  lemma {:induction false} FramesPush(a: seq<Bytes>, field: Bytes)
    ensures Frames(a + [field]) == Frames(a) + Frame(field)
  {
    FramesAppend(a, [field]);
    assert Frames([field]) == Frame(field);
  }

  lemma {:induction false} Regroup(a: seq<Bytes>, b: seq<Bytes>, c: seq<Bytes>)
    ensures a + b + c == a + (b + c)
  {
  }

  // canonical_bytes

  method AppendFrame(output: Bytes, ghost done: seq<Bytes>, field: Bytes) returns (r: Bytes)
    requires output == Frames(done)
    ensures r == Frames(done + [field])
  {
    FramesPush(done, field);
    r := output + Frame(field);
  }

  method AppendOptional(output: Bytes, ghost done: seq<Bytes>, t: Option<Bytes>) returns (r: Bytes)
    requires output == Frames(done)
    ensures r == Frames(done + OptionalText(t))
  {
    if t.Some? {
      r := AppendFrame(output, done, SOME);
      r := AppendFrame(r, done + [SOME], t.value);
      assert done + [SOME] + [t.value] == done + OptionalText(t);
    } else {
      r := AppendFrame(output, done, NONE);
    }
  }

  method AppendAll(output: Bytes, ghost done: seq<Bytes>, labels: seq<Bytes>) returns (r: Bytes)
    requires output == Frames(done)
    ensures r == Frames(done + labels)
  {
    r := output;
    assert done + labels[..0] == done;
    for i := 0 to |labels|
      invariant r == Frames(done + labels[..i])
    {
      r := AppendFrame(r, done + labels[..i], labels[i]);
      assert done + labels[..i + 1] == done + labels[..i] + [labels[i]];
    }
    assert labels[..|labels|] == labels;
  }

  method AppendCounted(output: Bytes, ghost done: seq<Bytes>, labels: seq<Bytes>) returns (r: Bytes)
    requires output == Frames(done)
    ensures r == Frames(done + Counted(labels))
  {
    r := AppendFrame(output, done, Be64(|labels|));
    r := AppendAll(r, done + [Be64(|labels|)], labels);
    Regroup(done, [Be64(|labels|)], labels);
  }

  method AppendHead(o: Observed) returns (output: Bytes)
    requires -TWO_64 / 2 <= o.scanId
    ensures output == Frames(Head(o))
  {
    output := AppendFrame([], [], TAG);
    output := AppendFrame(output, [TAG], Be64(o.scanId));
    output := AppendFrame(output, [TAG] + [Be64(o.scanId)], o.candidateKey);
    output := AppendFrame(output, [TAG] + [Be64(o.scanId)] + [o.candidateKey], o.path);
    output := AppendFrame(output, [TAG] + [Be64(o.scanId)] + [o.candidateKey] + [o.path], ModeText(o.mode));
    output := AppendFrame(output, [TAG] + [Be64(o.scanId)] + [o.candidateKey] + [o.path] + [ModeText(o.mode)],
                          Be64(o.size));
    assert [] + [TAG] == [TAG];
    assert [TAG] + [Be64(o.scanId)] + [o.candidateKey] + [o.path] + [ModeText(o.mode)] + [Be64(o.size)] == Head(o);
  }

  method AppendFacts(prefix: Bytes, ghost done: seq<Bytes>, o: Observed) returns (output: Bytes)
    requires prefix == Frames(done)
    ensures output == Frames(done + Facts(o))
  {
    ghost var a, b, c := OptionalText(o.classification), OptionalText(o.matchedRule), OptionalText(o.adapter);
    var flag: Bytes := [if o.protected then 1 else 0];
    output := AppendOptional(prefix, done, o.classification);
    output := AppendOptional(output, done + a, o.matchedRule);
    output := AppendFrame(output, done + a + b, flag);
    output := AppendFrame(output, done + a + b + [flag], o.maxRisk);
    output := AppendOptional(output, done + a + b + [flag] + [o.maxRisk], o.adapter);
    Regroup(done, a, b);
    Regroup(done + (a + b), [flag], [o.maxRisk]);
    assert [flag] + [o.maxRisk] == [flag, o.maxRisk];
    Regroup(done + (a + b), [flag, o.maxRisk], c);
    Regroup(done, a + b, [flag, o.maxRisk] + c);
    Regroup(a, b, [flag, o.maxRisk] + c);
  }

  method CanonicalBytes(o: Observed) returns (output: Bytes)
    requires -TWO_64 / 2 <= o.scanId
    ensures output == CanonicalForm(o)
  {
    output := AppendHead(o);
    output := AppendOptional(output, Head(o), if o.age.Some? then Some(Be64(o.age.value)) else None);
    var labels := Ascend(o.labels);
    ghost var h, a, c, f := Head(o), OptionalU64(o.age), Counted(labels), Facts(o);
    output := AppendCounted(output, h + a, labels);
    output := AppendFacts(output, h + a + c, o);
    Regroup(h + a, c, f);
    Regroup(h, a, c + f);
  }

  // What the bytes say

  predicate AllAddressable(fields: seq<Bytes>) {
    forall i | 0 <= i < |fields| :: Addressable(fields[i])
  }

  /** The bytes determine the fields. */
  lemma {:induction false} FramesInjective(a: seq<Bytes>, b: seq<Bytes>)
    requires AllAddressable(a) && AllAddressable(b) && Frames(a) == Frames(b)
    ensures a == b
  {
    if a != [] && b != [] {
      FrameIsPrefixFree(a[0], Frames(a[1..]), b[0], Frames(b[1..]));
      FramesInjective(a[1..], b[1..]);
      assert a == [a[0]] + a[1..] && b == [b[0]] + b[1..];
    }
  }

  lemma {:induction false} OptionalTextIsPrefixFree(a: Option<Bytes>, r: seq<Bytes>, b: Option<Bytes>, s: seq<Bytes>)
    requires OptionalText(a) + r == OptionalText(b) + s
    ensures a == b && r == s
  {
    var x, y := OptionalText(a) + r, OptionalText(b) + s;
    assert x[0] == y[0] && SOME[0] != NONE[0];
    if a.Some? {
      assert x[1] == a.value && y[1] == b.value;
      assert x[2..] == r && y[2..] == s;
    } else {
      assert x[1..] == r && y[1..] == s;
    }
  }

  lemma {:induction false} CountedIsPrefixFree(a: seq<Bytes>, r: seq<Bytes>, b: seq<Bytes>, s: seq<Bytes>)
    requires |a| < TWO_64 && |b| < TWO_64 && Counted(a) + r == Counted(b) + s
    ensures a == b && r == s
  {
    var x, y := Counted(a) + r, Counted(b) + s;
    assert x[0] == Be64(|a|) && y[0] == Be64(|b|);
    Be64Injective(|a|, |b|);
    assert x[1..1 + |a|] == a && y[1..1 + |b|] == b;
    assert x[1 + |a|..] == r && y[1 + |b|..] == s;
  }

  lemma {:induction false} HeadIsPrefixFree(o: Observed, r: seq<Bytes>, p: Observed, s: seq<Bytes>)
    requires WellTyped(o) && WellTyped(p) && Head(o) + r == Head(p) + s
    ensures o.scanId == p.scanId && o.candidateKey == p.candidateKey && o.path == p.path && o.mode == p.mode &&
            o.size == p.size
    ensures r == s
  {
    var x, y := Head(o) + r, Head(p) + s;
    assert x[1] == Be64(o.scanId) && y[1] == Be64(p.scanId);
    assert x[2] == o.candidateKey && y[2] == p.candidateKey;
    assert x[3] == o.path && y[3] == p.path;
    assert x[4] == ModeText(o.mode) && y[4] == ModeText(p.mode);
    assert x[5] == Be64(o.size) && y[5] == Be64(p.size);
    Be64Injective(o.scanId, p.scanId);
    Be64Injective(o.size, p.size);
    assert ModeText(o.mode)[0] == ModeText(p.mode)[0];
    assert x[6..] == r && y[6..] == s;
  }

  lemma {:induction false} FactsDetermine(o: Observed, p: Observed)
    requires Facts(o) == Facts(p)
    ensures o.classification == p.classification && o.matchedRule == p.matchedRule && o.protected == p.protected
    ensures o.maxRisk == p.maxRisk && o.adapter == p.adapter
  {
    var x := [[if o.protected then 1 else 0], o.maxRisk] + OptionalText(o.adapter);
    var y := [[if p.protected then 1 else 0], p.maxRisk] + OptionalText(p.adapter);
    OptionalTextIsPrefixFree(o.classification, OptionalText(o.matchedRule) + x, p.classification,
                             OptionalText(p.matchedRule) + y);
    OptionalTextIsPrefixFree(o.matchedRule, x, p.matchedRule, y);
    assert x[0] == y[0] && x[1] == y[1];
    assert x[2..] == OptionalText(o.adapter) + [] && y[2..] == OptionalText(p.adapter) + [];
    OptionalTextIsPrefixFree(o.adapter, [], p.adapter, []);
  }

  lemma {:induction false} AgeAndLabelsArePrefixFree(age: Option<nat>, a: seq<Bytes>, r: seq<Bytes>,
                                                     other: Option<nat>, b: seq<Bytes>, s: seq<Bytes>)
    requires (age.Some? ==> age.value < TWO_64) && (other.Some? ==> other.value < TWO_64) && |a| < TWO_64 &&
             |b| < TWO_64
    requires OptionalU64(age) + (Counted(a) + r) == OptionalU64(other) + (Counted(b) + s)
    ensures age == other && a == b && r == s
  {
    OptionalTextIsPrefixFree(
      if age.Some? then Some(Be64(age.value)) else None, Counted(a) + r,
      if other.Some? then Some(Be64(other.value)) else None, Counted(b) + s);
    if age.Some? {
      Be64Injective(age.value, other.value);
    }
    CountedIsPrefixFree(a, r, b, s);
  }

  lemma {:induction false} FieldsDetermine(o: Observed, p: Observed)
    requires WellTyped(o) && WellTyped(p) && Fields(o) == Fields(p)
    requires |Ascend(o.labels)| < TWO_64 && |Ascend(p.labels)| < TWO_64
    ensures Same(o, p)
  {
    var a, b := Ascend(o.labels), Ascend(p.labels);
    HeadIsPrefixFree(o, OptionalU64(o.age) + (Counted(a) + Facts(o)), p, OptionalU64(p.age) + (Counted(b) + Facts(p)));
    AgeAndLabelsArePrefixFree(o.age, a, Facts(o), p.age, b, Facts(p));
    AscendIgnoresOrder(o.labels, p.labels);
    FactsDetermine(o, p);
  }

  /** Equal in every field, the labels as sets. */
  ghost predicate Same(o: Observed, p: Observed) {
    && o.(labels := []) == p.(labels := [])
    && forall l :: l in o.labels <==> l in p.labels
  }

  lemma {:induction false} AscendIsShorter(s: seq<Bytes>)
    ensures |Ascend(s)| <= |s|
  {
    if s != [] {
      AscendIsShorter(s[..|s| - 1]);
      InsertGrowsByOne(s[|s| - 1], Ascend(s[..|s| - 1]));
    }
  }

  lemma {:induction false} InsertGrowsByOne(t: Bytes, s: seq<Bytes>)
    ensures |InsertText(t, s)| <= |s| + 1
  {
    if s != [] { InsertGrowsByOne(t, s[1..]); }
  }

  lemma {:induction false} FieldsAreAddressable(o: Observed)
    requires WellTyped(o)
    ensures AllAddressable(Fields(o)) && |Ascend(o.labels)| < TWO_64
  {
    AscendIsShorter(o.labels);
    AscendSorts(o.labels);
    assert AllAddressable(Ascend(o.labels));
    assert AllAddressable(Head(o)) && AllAddressable(OptionalU64(o.age)) && AllAddressable(Facts(o));
  }

  /** Two observations have the same canonical bytes exactly when all their fields agree, the labels as
      sets: the bytes leave out nothing else and depend on nothing else. */
  lemma {:induction false} CanonicalBytesIdentify(o: Observed, p: Observed)
    requires WellTyped(o) && WellTyped(p)
    ensures CanonicalForm(o) == CanonicalForm(p) <==> Same(o, p)
  {
    if CanonicalForm(o) == CanonicalForm(p) {
      FieldsAreAddressable(o);
      FieldsAreAddressable(p);
      FramesInjective(Fields(o), Fields(p));
      FieldsDetermine(o, p);
    }
    if Same(o, p) {
      AscendIgnoresOrder(o.labels, p.labels);
      SameFacts(o, p);
    }
  }

  lemma {:induction false} SameFacts(o: Observed, p: Observed)
    requires o.(labels := []) == p.(labels := []) && -TWO_64 / 2 <= o.scanId
    ensures Head(o) == Head(p) && o.age == p.age && Facts(o) == Facts(p)
  {
    var q := o.(labels := []);
    assert Head(o) == Head(q) == Head(p) && Facts(o) == Facts(q) == Facts(p) && o.age == q.age == p.age;
  }
}
