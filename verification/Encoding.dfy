/** The bytes a signal configuration is hashed as (src/reload.rs, `generation_of`).

    No length is written anywhere: fields and lists end at control bytes. What may be read back, and what
    may not, is proved piece by piece; strings are their UTF-8 bytes. */
module Encoding {
  import opened Common
  import opened Text

  type byte = x: int | 0 <= x < 256

  type Bytes = seq<byte>

  datatype Mode = OnChange | Interval

  /** The publish settings of a signal; a deadband is the decimal text it prints as. */
  datatype Publish = Publish(mode: Mode, batchMs: nat, deadband: Option<Bytes>)

  /** What the hasher sees of a configured signal: its texts as bytes, its deadband as printed. */
  datatype Signal = Signal(
    id: Bytes,
    dataItemId: Bytes,
    name: Option<Bytes>,
    channel: Option<Bytes>,
    conditionBinding: Option<seq<Bytes>>,
    publish: Option<Publish>)

  datatype Matcher = Matcher(
    category: Option<Bytes>,
    kind: Option<Bytes>,
    subKind: Option<Bytes>,
    idMatch: Option<Bytes>,
    path: Option<Bytes>)

  datatype SelectionMode = Explicit | Include | All

  datatype Selection = Selection(
    mode: SelectionMode,
    includes: seq<Matcher>,
    excludes: seq<Matcher>,
    maxSignals: nat,
    autoConditionBinding: bool,
    defaultBatchMs: nat,
    defaultPublishMode: Mode,
    maxTokens: nat,
    maxBytes: nat)

  datatype Config = Config(signals: seq<Signal>, selection: Option<Selection>)

  // ---------------------------------------------------------------------------------------------
  // The encoding
  // ---------------------------------------------------------------------------------------------

  function Ascii(s: string): (b: Bytes)
    ensures |b| == |s| && forall i :: 0 <= i < |s| ==> b[i] == s[i] as int % 256
  {
    seq(|s|, i requires 0 <= i < |s| => s[i] as int % 256)
  }

  function Mark<T>(v: Option<T>): byte {
    if v.None? then 0x00 else 0x01
  }

  function OrEmpty(v: Option<Bytes>): Bytes {
    if v.None? then [] else v.value
  }

  function OptBytes(v: Option<Bytes>): Bytes {
    [Mark(v)] + (OrEmpty(v) + [0x1f])
  }

  function ItemsBytes(items: seq<Bytes>): Bytes {
    if items == [] then [] else items[0] + [0x1e] + ItemsBytes(items[1..])
  }

  function BindingBytes(binding: Option<seq<Bytes>>): Bytes {
    [Mark(binding)] + (ItemsBytes(if binding.None? then [] else binding.value) + [0x1f])
  }

  function ModeText(mode: Mode): string {
    match mode
    case OnChange => "OnChange"
    case Interval => "Interval"
  }

  function DeadbandBytes(deadband: Option<Bytes>): Bytes {
    if deadband.None? then Ascii("None") else Ascii("Some(") + deadband.value + Ascii(")")
  }

  function PublishText(p: Publish): Bytes {
    Ascii(ModeText(p.mode)) + (Ascii("|") + (Ascii(Decimal(p.batchMs)) + Ascii("|") + DeadbandBytes(p.deadband)))
  }

  function SettingsText(p: Option<Publish>): Bytes {
    if p.None? then [] else PublishText(p.value)
  }

  function PublishBytes(p: Option<Publish>): Bytes {
    [Mark(p)] + SettingsText(p)
  }

  function SignalBytes(s: Signal): Bytes {
    s.id + [0x1f] + (s.dataItemId + [0x1f] + (OptBytes(s.name) + (OptBytes(s.channel)
    + (BindingBytes(s.conditionBinding) + (PublishBytes(s.publish) + [0x1d])))))
  }

  function SignalsBytes(signals: seq<Signal>): Bytes {
    if signals == [] then [] else SignalBytes(signals[0]) + SignalsBytes(signals[1..])
  }

  function MatcherBytes(m: Matcher): Bytes {
    OptBytes(m.category) + (OptBytes(m.kind) + (OptBytes(m.subKind) + (OptBytes(m.idMatch)
    + (OptBytes(m.path) + [0x1e]))))
  }

  function MatchersBytes(ms: seq<Matcher>): Bytes {
    if ms == [] then [] else MatcherBytes(ms[0]) + MatchersBytes(ms[1..])
  }

  function SelectionModeText(mode: SelectionMode): string {
    match mode
    case Explicit => "explicit"
    case Include => "include"
    case All => "all"
  }

  /** Little-endian, on a fixed number of bytes. */
  function Le(n: nat, width: nat): (b: Bytes)
    ensures |b| == width
  {
    if width == 0 then [] else [n % 256] + Le(n / 256, width - 1)
  }

  function TailBytes(s: Selection): Bytes {
    Le(s.maxSignals, 8) + ([if s.autoConditionBinding then 1 else 0] + (Le(s.defaultBatchMs, 4)
    + (Ascii(ModeText(s.defaultPublishMode)) + (Le(s.maxTokens, 8) + Le(s.maxBytes, 8)))))
  }

  function SelectionBytes(s: Selection): Bytes {
    [0x02] + (Ascii(SelectionModeText(s.mode)) + [0x1f]
    + (MatchersBytes(s.includes) + [0x1d] + (MatchersBytes(s.excludes) + [0x1d] + TailBytes(s))))
  }

  function ConfigBytes(c: Config): Bytes {
    SignalsBytes(c.signals) + if c.selection.Some? then SelectionBytes(c.selection.value) else []
  }

  // ---------------------------------------------------------------------------------------------
  // Which configurations can be told apart
  // ---------------------------------------------------------------------------------------------

  predicate OptLacks(v: Option<Bytes>, t: byte) {
    v.Some? ==> t !in v.value
  }

  /** No string of a signal contains the byte that ends it. */
  predicate SignalOk(s: Signal) {
    && 0x1f !in s.id && 0x1f !in s.dataItemId
    && OptLacks(s.name, 0x1f) && OptLacks(s.channel, 0x1f)
    && (s.conditionBinding.Some? ==>
          forall c :: c in s.conditionBinding.value ==> 0x1e !in c && (c != [] ==> c[0] != 0x1f))
    && (s.publish.Some? ==> OptLacks(s.publish.value.deadband, 0x1d))
  }

  predicate MatcherOk(m: Matcher) {
    OptLacks(m.category, 0x1f) && OptLacks(m.kind, 0x1f) && OptLacks(m.subKind, 0x1f) && OptLacks(m.idMatch, 0x1f)
    && OptLacks(m.path, 0x1f)
  }

  const U32: nat := 0x1_0000_0000
  const U64: nat := 0x1_0000_0000_0000_0000

  /** The longest topic, and the most separators in one: what a resolved channel budget is computed from. */
  const MAX_TOPIC_BYTES: nat := 256
  const MAX_TOPIC_SLASHES: nat := 7

  predicate SelectionOk(s: Selection) {
    && (forall m :: m in s.includes ==> MatcherOk(m)) && (forall m :: m in s.excludes ==> MatcherOk(m))
    && s.maxSignals < U64 && s.defaultBatchMs < U32
    && s.maxTokens <= MAX_TOPIC_SLASHES && s.maxBytes <= MAX_TOPIC_BYTES
  }

  predicate ConfigOk(c: Config) {
    && SignalsOk(c.signals)
    && (c.selection.Some? ==> SelectionOk(c.selection.value))
  }

  // ---------------------------------------------------------------------------------------------
  // Reading back, piece by piece: equal bytes come from equal pieces followed by equal remainders
  // ---------------------------------------------------------------------------------------------

  lemma Associate(a: Bytes, b: Bytes, c: Bytes)
    ensures a + b + c == a + (b + c)
  {
  }

  lemma SameLength(a: Bytes, r: Bytes, b: Bytes, s: Bytes)
    requires |a| == |b| && a + r == b + s
    ensures a == b && r == s
  {
    assert (a + r)[..|a|] == a && (b + s)[..|b|] == b;
    assert (a + r)[|a|..] == r && (b + s)[|b|..] == s;
  }

  /** A field ends at the first byte that ends fields of its kind. */
  lemma UpTo(a: Bytes, r: Bytes, b: Bytes, s: Bytes, t: byte)
    requires a + [t] + r == b + [t] + s
    requires t !in a && t !in b
    ensures a == b && r == s
  {
    NotBeyond(a, r, b, s, t);
    NotBeyond(b, s, a, r, t);
    SameLength(a + [t], r, b + [t], s);
    SameLength(a, [t], b, [t]);
  }

  lemma NotBeyond(a: Bytes, r: Bytes, b: Bytes, s: Bytes, t: byte)
    requires a + [t] + r == b + [t] + s && t !in b
    ensures |a| >= |b|
  {
    assert (a + [t] + r)[|a|] == t;
    assert forall i :: 0 <= i < |b| ==> (b + [t] + s)[i] == b[i];
  }

  /** A leading mark tells alternatives apart. */
  lemma Marked(h: byte, a: Bytes, r: Bytes, k: byte, b: Bytes, s: Bytes)
    requires [h] + a + r == [k] + b + s
    ensures h == k && a + r == b + s
  {
    assert ([h] + a + r)[0] == h && ([k] + b + s)[0] == k;
    assert ([h] + a + r)[1..] == a + r && ([k] + b + s)[1..] == b + s;
  }

  lemma OptReadsBack(x: Option<Bytes>, r: Bytes, y: Option<Bytes>, s: Bytes)
    requires OptLacks(x, 0x1f) && OptLacks(y, 0x1f)
    requires OptBytes(x) + r == OptBytes(y) + s
    ensures x == y && r == s
  {
    Marked(Mark(x), OrEmpty(x) + [0x1f], r, Mark(y), OrEmpty(y) + [0x1f], s);
    UpTo(OrEmpty(x), r, OrEmpty(y), s, 0x1f);
  }

  predicate ItemsOk(items: seq<Bytes>) {
    forall c :: c in items ==> 0x1e !in c && (c != [] ==> c[0] != 0x1f)
  }

  lemma ItemsHead(items: seq<Bytes>, r: Bytes)
    requires ItemsOk(items)
    ensures (ItemsBytes(items) + ([0x1f] + r))[0] == 0x1f <==> items == []
  {
    if items != [] {
      var c := items[0];
      assert c in items;
      assert (ItemsBytes(items) + ([0x1f] + r))[0] == (c + [0x1e])[0];
    }
  }

  lemma {:induction false} ItemsReadBack(xs: seq<Bytes>, r: Bytes, ys: seq<Bytes>, s: Bytes)
    requires ItemsOk(xs) && ItemsOk(ys)
    requires ItemsBytes(xs) + ([0x1f] + r) == ItemsBytes(ys) + ([0x1f] + s)
    ensures xs == ys && r == s
  {
    ItemsHead(xs, r);
    ItemsHead(ys, s);
    if xs == [] {
      assert ys == [];
      assert ItemsBytes(xs) + ([0x1f] + r) == [0x1f] + r && ItemsBytes(ys) + ([0x1f] + s) == [0x1f] + s;
      SameLength([0x1f], r, [0x1f], s);
    } else {
      var restX, restY := ItemsBytes(xs[1..]) + ([0x1f] + r), ItemsBytes(ys[1..]) + ([0x1f] + s);
      assert ItemsBytes(xs) + ([0x1f] + r) == xs[0] + [0x1e] + restX;
      assert ItemsBytes(ys) + ([0x1f] + s) == ys[0] + [0x1e] + restY;
      assert xs[0] in xs && ys[0] in ys;
      UpTo(xs[0], restX, ys[0], restY, 0x1e);
      ItemsReadBack(xs[1..], r, ys[1..], s);
      assert xs == [xs[0]] + xs[1..] && ys == [ys[0]] + ys[1..];
    }
  }

  lemma {:induction false} ItemsConcat(a: seq<Bytes>, b: seq<Bytes>)
    ensures ItemsBytes(a + b) == ItemsBytes(a) + ItemsBytes(b)
  {
    if a == [] {
      assert a + b == b;
    } else {
      assert (a + b)[0] == a[0] && (a + b)[1..] == a[1..] + b;
      ItemsConcat(a[1..], b);
      Associate(a[0] + [0x1e], ItemsBytes(a[1..]), ItemsBytes(b));
    }
  }

  lemma BindingReadsBack(x: Option<seq<Bytes>>, r: Bytes, y: Option<seq<Bytes>>, s: Bytes)
    requires (x.Some? ==> ItemsOk(x.value)) && (y.Some? ==> ItemsOk(y.value))
    requires BindingBytes(x) + r == BindingBytes(y) + s
    ensures x == y && r == s
  {
    var xs, ys := if x.None? then [] else x.value, if y.None? then [] else y.value;
    Marked(Mark(x), ItemsBytes(xs) + [0x1f], r, Mark(y), ItemsBytes(ys) + [0x1f], s);
    assert ItemsBytes(xs) + [0x1f] + r == ItemsBytes(xs) + ([0x1f] + r);
    assert ItemsBytes(ys) + [0x1f] + s == ItemsBytes(ys) + ([0x1f] + s);
    ItemsReadBack(xs, r, ys, s);
  }

  /** Digits are neither the bar nor the byte that ends a signal. */
  lemma DigitsLackEnds(digits: string)
    requires forall i :: 0 <= i < |digits| ==> IsDigit(digits[i])
    ensures 0x1d !in Ascii(digits) && '|' as int !in Ascii(digits)
  {
    forall i | 0 <= i < |digits| ensures '0' as int <= Ascii(digits)[i] <= '9' as int {
      assert IsDigit(digits[i]);
    }
  }

  lemma DigitsAreRead(a: string, b: string)
    requires forall i :: 0 <= i < |a| ==> IsDigit(a[i])
    requires forall i :: 0 <= i < |b| ==> IsDigit(b[i])
    requires Ascii(a) == Ascii(b)
    ensures a == b
  {
    assert |a| == |b|;
    forall i | 0 <= i < |a| ensures a[i] == b[i] {
      assert IsDigit(a[i]) && IsDigit(b[i]) && Ascii(a)[i] == Ascii(b)[i];
    }
  }

  lemma NumberReadsBack(m: nat, r: Bytes, n: nat, s: Bytes)
    requires Ascii(Decimal(m)) + Ascii("|") + r == Ascii(Decimal(n)) + Ascii("|") + s
    ensures m == n && r == s
  {
    DecimalIsRead(m);
    DecimalIsRead(n);
    DigitsLackEnds(Decimal(m));
    DigitsLackEnds(Decimal(n));
    assert Ascii("|") == ['|' as int];
    UpTo(Ascii(Decimal(m)), r, Ascii(Decimal(n)), s, '|' as int);
    DigitsAreRead(Decimal(m), Decimal(n));
  }

  lemma DeadbandReadsBack(x: Option<Bytes>, y: Option<Bytes>)
    requires DeadbandBytes(x) == DeadbandBytes(y)
    ensures x == y
  {
    assert DeadbandBytes(x)[0] == (if x.None? then 'N' else 'S') as int;
    assert DeadbandBytes(y)[0] == (if y.None? then 'N' else 'S') as int;
    if x.Some? {
      assert DeadbandBytes(x) == Ascii("Some(") + (x.value + Ascii(")"));
      assert DeadbandBytes(y) == Ascii("Some(") + (y.value + Ascii(")"));
      SameLength(Ascii("Some("), x.value + Ascii(")"), Ascii("Some("), y.value + Ascii(")"));
      SameLength(x.value, Ascii(")"), y.value, Ascii(")"));
    }
  }

  lemma ModeReadsBack(x: Mode, r: Bytes, y: Mode, s: Bytes)
    requires Ascii(ModeText(x)) + r == Ascii(ModeText(y)) + s
    ensures x == y && r == s
  {
    assert |ModeText(x)| == 8 == |ModeText(y)|;
    SameLength(Ascii(ModeText(x)), r, Ascii(ModeText(y)), s);
    assert Ascii(ModeText(x))[0] == ModeText(x)[0] as int;
    assert Ascii(ModeText(y))[0] == ModeText(y)[0] as int;
  }

  lemma PublishTextReadsBack(p: Publish, q: Publish)
    requires PublishText(p) == PublishText(q)
    ensures p == q
  {
    var tailP := Ascii(Decimal(p.batchMs)) + Ascii("|") + DeadbandBytes(p.deadband);
    var tailQ := Ascii(Decimal(q.batchMs)) + Ascii("|") + DeadbandBytes(q.deadband);
    ModeReadsBack(p.mode, Ascii("|") + tailP, q.mode, Ascii("|") + tailQ);
    SameLength(Ascii("|"), tailP, Ascii("|"), tailQ);
    NumberReadsBack(p.batchMs, DeadbandBytes(p.deadband), q.batchMs, DeadbandBytes(q.deadband));
    DeadbandReadsBack(p.deadband, q.deadband);
  }

  lemma PublishTextLacksTheEnd(p: Publish)
    requires OptLacks(p.deadband, 0x1d)
    ensures 0x1d !in PublishText(p)
  {
    DecimalIsRead(p.batchMs);
    DigitsLackEnds(Decimal(p.batchMs));
    assert 0x1d !in Ascii(ModeText(p.mode));
    assert 0x1d !in DeadbandBytes(p.deadband);
  }

  lemma SettingsTextLacksTheEnd(p: Option<Publish>)
    requires p.Some? ==> OptLacks(p.value.deadband, 0x1d)
    ensures 0x1d !in SettingsText(p)
  {
    if p.Some? {
      PublishTextLacksTheEnd(p.value);
    }
  }

  lemma PublishReadsBack(x: Option<Publish>, r: Bytes, y: Option<Publish>, s: Bytes)
    requires (x.Some? ==> OptLacks(x.value.deadband, 0x1d)) && (y.Some? ==> OptLacks(y.value.deadband, 0x1d))
    requires PublishBytes(x) + ([0x1d] + r) == PublishBytes(y) + ([0x1d] + s)
    ensures x == y && r == s
  {
    var a, b := SettingsText(x), SettingsText(y);
    Marked(Mark(x), a, [0x1d] + r, Mark(y), b, [0x1d] + s);
    SettingsTextLacksTheEnd(x);
    SettingsTextLacksTheEnd(y);
    Associate(a, [0x1d], r);
    Associate(b, [0x1d], s);
    UpTo(a, r, b, s, 0x1d);
    if x.Some? {
      PublishTextReadsBack(x.value, y.value);
    }
  }

  // ---------------------------------------------------------------------------------------------
  // Signals
  // ---------------------------------------------------------------------------------------------

  /** A signal's bytes and what follows them, grouped as they are read. */
  function SignalThen(s: Signal, r: Bytes): Bytes {
    s.id + [0x1f] + (s.dataItemId + [0x1f] + (OptBytes(s.name) + (OptBytes(s.channel)
    + (BindingBytes(s.conditionBinding) + (PublishBytes(s.publish) + ([0x1d] + r))))))
  }

  lemma FiveBefore(a: Bytes, b: Bytes, c: Bytes, d: Bytes, e: Bytes, r: Bytes)
    ensures a + (b + (c + (d + e))) + r == a + (b + (c + (d + (e + r))))
  {
    Associate(a, b + (c + (d + e)), r);
    Associate(b, c + (d + e), r);
    Associate(c, d + e, r);
    Associate(d, e, r);
  }

  lemma SignalIsRead(s: Signal, r: Bytes)
    ensures SignalBytes(s) + r == SignalThen(s, r)
  {
    var rest := OptBytes(s.name) + (OptBytes(s.channel)
                + (BindingBytes(s.conditionBinding) + (PublishBytes(s.publish) + [0x1d])));
    Associate(s.id + [0x1f], s.dataItemId + [0x1f] + rest, r);
    Associate(s.dataItemId + [0x1f], rest, r);
    FiveBefore(OptBytes(s.name), OptBytes(s.channel), BindingBytes(s.conditionBinding), PublishBytes(s.publish), [0x1d],
               r);
  }

  lemma SignalReadsBack(x: Signal, r: Bytes, y: Signal, s: Bytes)
    requires SignalOk(x) && SignalOk(y) && SignalBytes(x) + r == SignalBytes(y) + s
    ensures x == y && r == s
  {
    SignalIsRead(x, r);
    SignalIsRead(y, s);
    var x5, y5 := PublishBytes(x.publish) + ([0x1d] + r), PublishBytes(y.publish) + ([0x1d] + s);
    var x4, y4 := BindingBytes(x.conditionBinding) + x5, BindingBytes(y.conditionBinding) + y5;
    var x3, y3 := OptBytes(x.channel) + x4, OptBytes(y.channel) + y4;
    var x2, y2 := OptBytes(x.name) + x3, OptBytes(y.name) + y3;
    UpTo(x.id, x.dataItemId + [0x1f] + x2, y.id, y.dataItemId + [0x1f] + y2, 0x1f);
    UpTo(x.dataItemId, x2, y.dataItemId, y2, 0x1f);
    OptReadsBack(x.name, x3, y.name, y3);
    OptReadsBack(x.channel, x4, y.channel, y4);
    BindingReadsBack(x.conditionBinding, x5, y.conditionBinding, y5);
    PublishReadsBack(x.publish, r, y.publish, s);
  }

  predicate SignalsOk(xs: seq<Signal>) {
    forall x :: x in xs ==> SignalOk(x)
  }

  lemma SignalsHead(xs: seq<Signal>, r: Bytes)
    requires xs != []
    ensures SignalsBytes(xs) + r == SignalBytes(xs[0]) + (SignalsBytes(xs[1..]) + r)
  {
    Associate(SignalBytes(xs[0]), SignalsBytes(xs[1..]), r);
  }

  lemma HeadReadsBack(xs: seq<Signal>, r: Bytes, ys: seq<Signal>, s: Bytes)
    requires xs != [] && ys != [] && SignalsOk(xs) && SignalsOk(ys)
    requires SignalsBytes(xs) + r == SignalsBytes(ys) + s
    ensures xs[0] == ys[0] && SignalsBytes(xs[1..]) + r == SignalsBytes(ys[1..]) + s
  {
    SignalsHead(xs, r);
    SignalsHead(ys, s);
    assert xs[0] in xs && ys[0] in ys;
    SignalReadsBack(xs[0], SignalsBytes(xs[1..]) + r, ys[0], SignalsBytes(ys[1..]) + s);
  }

  lemma OneMoreInFront<T>(xs: seq<T>, front: seq<T>, rest: seq<T>)
    requires xs != [] && xs[1..] == front + rest
    ensures xs == [xs[0]] + front + rest
  {
    assert xs == [xs[0]] + xs[1..];
  }

  /** Equal bytes come from lists of which one begins like the other: past a common front only one list goes on. */
  lemma {:induction false} CommonFront(xs: seq<Signal>, r: Bytes, ys: seq<Signal>, s: Bytes)
    returns (front: seq<Signal>, us: seq<Signal>, vs: seq<Signal>)
    requires SignalsOk(xs) && SignalsOk(ys) && SignalsBytes(xs) + r == SignalsBytes(ys) + s
    ensures xs == front + us && ys == front + vs && (us == [] || vs == [])
    ensures SignalsBytes(us) + r == SignalsBytes(vs) + s
  {
    front, us, vs := [], xs, ys;
    if xs != [] && ys != [] {
      HeadReadsBack(xs, r, ys, s);
      front, us, vs := CommonFront(xs[1..], r, ys[1..], s);
      OneMoreInFront(xs, front, us);
      OneMoreInFront(ys, front, vs);
      front := [xs[0]] + front;
    }
  }

  lemma {:induction false} SignalsConcat(a: seq<Signal>, b: seq<Signal>)
    ensures SignalsBytes(a + b) == SignalsBytes(a) + SignalsBytes(b)
  {
    if a == [] {
      assert a + b == b;
    } else {
      assert (a + b)[0] == a[0] && (a + b)[1..] == a[1..] + b;
      SignalsConcat(a[1..], b);
      Associate(SignalBytes(a[0]), SignalsBytes(a[1..]), SignalsBytes(b));
    }
  }

  lemma OneSignalMore(signals: seq<Signal>, n: nat)
    requires n < |signals|
    ensures SignalsBytes(signals[..n + 1]) == SignalsBytes(signals[..n]) + SignalBytes(signals[n])
  {
    var last := [signals[n]];
    assert signals[..n + 1] == signals[..n] + last;
    SignalsConcat(signals[..n], last);
    assert SignalsBytes(last) == SignalBytes(signals[n]) + SignalsBytes([]);
  }

  lemma LastOf(front: Bytes, back: Bytes)
    requires back != []
    ensures (front + back)[|front + back| - 1] == back[|back| - 1]
  {
  }

  /** A list of signals ends like a signal. */
  lemma SignalsLast(xs: seq<Signal>)
    requires xs != []
    ensures SignalsBytes(xs) != [] && SignalsBytes(xs)[|SignalsBytes(xs)| - 1] == 0x1d
  {
    var n := |xs| - 1;
    OneSignalMore(xs, n);
    assert xs[..n + 1] == xs;
    SignalLast(xs[n]);
    LastOf(SignalsBytes(xs[..n]), SignalBytes(xs[n]));
  }

  lemma SignalLast(x: Signal)
    ensures SignalBytes(x) != [] && SignalBytes(x)[|SignalBytes(x)| - 1] == 0x1d
  {
    SignalIsRead(x, []);
    assert SignalBytes(x) + [] == SignalBytes(x);
    var front := x.id + [0x1f] + (x.dataItemId + [0x1f] + (OptBytes(x.name) + (OptBytes(x.channel)
                 + (BindingBytes(x.conditionBinding) + PublishBytes(x.publish)))));
    assert SignalBytes(x) == front + [0x1d];
  }

  // ---------------------------------------------------------------------------------------------
  // The selection
  // ---------------------------------------------------------------------------------------------

  function MatcherThen(m: Matcher, r: Bytes): Bytes {
    OptBytes(m.category) + (OptBytes(m.kind) + (OptBytes(m.subKind) + (OptBytes(m.idMatch)
    + (OptBytes(m.path) + ([0x1e] + r)))))
  }

  lemma MatcherIsRead(m: Matcher, r: Bytes)
    ensures MatcherBytes(m) + r == MatcherThen(m, r)
  {
    var rest := OptBytes(m.kind) + (OptBytes(m.subKind) + (OptBytes(m.idMatch) + (OptBytes(m.path) + [0x1e])));
    Associate(OptBytes(m.category), rest, r);
    FiveBefore(OptBytes(m.kind), OptBytes(m.subKind), OptBytes(m.idMatch), OptBytes(m.path), [0x1e], r);
  }

  lemma MatcherReadsBack(x: Matcher, r: Bytes, y: Matcher, s: Bytes)
    requires MatcherOk(x) && MatcherOk(y) && MatcherBytes(x) + r == MatcherBytes(y) + s
    ensures x == y && r == s
  {
    MatcherIsRead(x, r);
    MatcherIsRead(y, s);
    var x4, y4 := OptBytes(x.path) + ([0x1e] + r), OptBytes(y.path) + ([0x1e] + s);
    var x3, y3 := OptBytes(x.idMatch) + x4, OptBytes(y.idMatch) + y4;
    var x2, y2 := OptBytes(x.subKind) + x3, OptBytes(y.subKind) + y3;
    var x1, y1 := OptBytes(x.kind) + x2, OptBytes(y.kind) + y2;
    OptReadsBack(x.category, x1, y.category, y1);
    OptReadsBack(x.kind, x2, y.kind, y2);
    OptReadsBack(x.subKind, x3, y.subKind, y3);
    OptReadsBack(x.idMatch, x4, y.idMatch, y4);
    OptReadsBack(x.path, [0x1e] + r, y.path, [0x1e] + s);
    SameLength([0x1e], r, [0x1e], s);
  }

  lemma MatcherHead(m: Matcher)
    ensures MatcherBytes(m) != [] && MatcherBytes(m)[0] != 0x1d
  {
    var rest := MatcherBytes(m)[|OptBytes(m.category)|..];
    assert MatcherBytes(m) == OptBytes(m.category) + rest;
    assert OptBytes(m.category)[0] == Mark(m.category);
  }

  lemma Regroup(head: Bytes, rest: Bytes, r: Bytes)
    requires head != []
    ensures head + rest + r == head + (rest + r) && (head + rest + r)[0] == head[0]
  {
  }

  lemma MatchersHead(ms: seq<Matcher>, r: Bytes)
    ensures (MatchersBytes(ms) + ([0x1d] + r))[0] == 0x1d <==> ms == []
    ensures ms == [] ==> MatchersBytes(ms) + ([0x1d] + r) == [0x1d] + r
    ensures ms != [] ==>
      MatchersBytes(ms) + ([0x1d] + r) == MatcherBytes(ms[0]) + (MatchersBytes(ms[1..]) + ([0x1d] + r))
  {
    if ms != [] {
      MatcherHead(ms[0]);
      Regroup(MatcherBytes(ms[0]), MatchersBytes(ms[1..]), [0x1d] + r);
    }
  }

  lemma {:induction false} MatchersReadBack(xs: seq<Matcher>, r: Bytes, ys: seq<Matcher>, s: Bytes)
    requires (forall x :: x in xs ==> MatcherOk(x)) && (forall y :: y in ys ==> MatcherOk(y))
    requires MatchersBytes(xs) + ([0x1d] + r) == MatchersBytes(ys) + ([0x1d] + s)
    ensures xs == ys && r == s
  {
    MatchersHead(xs, r);
    MatchersHead(ys, s);
    if xs == [] {
      SameLength([0x1d], r, [0x1d], s);
    } else {
      assert ys != [] && xs[0] in xs && ys[0] in ys;
      MatcherReadsBack(xs[0], MatchersBytes(xs[1..]) + ([0x1d] + r), ys[0], MatchersBytes(ys[1..]) + ([0x1d] + s));
      MatchersReadBack(xs[1..], r, ys[1..], s);
      assert xs == [xs[0]] + xs[1..] && ys == [ys[0]] + ys[1..];
    }
  }

  lemma SelectionModeReadsBack(x: SelectionMode, r: Bytes, y: SelectionMode, s: Bytes)
    requires Ascii(SelectionModeText(x)) + [0x1f] + r == Ascii(SelectionModeText(y)) + [0x1f] + s
    ensures x == y && r == s
  {
    var a, b := SelectionModeText(x), SelectionModeText(y);
    UpTo(Ascii(a), r, Ascii(b), s, 0x1f);
    assert Ascii(a)[0] == a[0] as int && Ascii(b)[0] == b[0] as int;
  }

  function Pow256(width: nat): nat {
    if width == 0 then 1 else 256 * Pow256(width - 1)
  }

  lemma {:induction false} LeIsInjective(m: nat, n: nat, width: nat)
    requires m < Pow256(width) && n < Pow256(width) && Le(m, width) == Le(n, width)
    ensures m == n
  {
    if width > 0 {
      assert Le(m, width)[0] == Le(n, width)[0];
      assert Le(m, width)[1..] == Le(m / 256, width - 1) && Le(n, width)[1..] == Le(n / 256, width - 1);
      LeIsInjective(m / 256, n / 256, width - 1);
    }
  }

  lemma Widths()
    ensures Pow256(4) == U32 && Pow256(8) == U64
  {
    assert Pow256(1) == 256 && Pow256(2) == 65536 && Pow256(3) == 16777216 && Pow256(4) == U32;
    assert Pow256(5) == 256 * U32 && Pow256(6) == 65536 * U32 && Pow256(7) == 16777216 * U32 && Pow256(8) == U64;
  }

  lemma NumberLeReadsBack(m: nat, r: Bytes, n: nat, s: Bytes, width: nat)
    requires m < Pow256(width) && n < Pow256(width) && Le(m, width) + r == Le(n, width) + s
    ensures m == n && r == s
  {
    SameLength(Le(m, width), r, Le(n, width), s);
    LeIsInjective(m, n, width);
  }

  lemma TailReadsBack(x: Selection, y: Selection)
    requires SelectionOk(x) && SelectionOk(y) && TailBytes(x) == TailBytes(y)
    ensures x.(mode := y.mode, includes := y.includes, excludes := y.excludes) == y
  {
    Widths();
    var x4, y4 := Le(x.maxTokens, 8) + Le(x.maxBytes, 8), Le(y.maxTokens, 8) + Le(y.maxBytes, 8);
    var x3, y3 := Ascii(ModeText(x.defaultPublishMode)) + x4, Ascii(ModeText(y.defaultPublishMode)) + y4;
    var x2, y2 := Le(x.defaultBatchMs, 4) + x3, Le(y.defaultBatchMs, 4) + y3;
    var x1, y1 := [if x.autoConditionBinding then 1 else 0], [if y.autoConditionBinding then 1 else 0];
    NumberLeReadsBack(x.maxSignals, x1 + x2, y.maxSignals, y1 + y2, 8);
    SameLength(x1, x2, y1, y2);
    NumberLeReadsBack(x.defaultBatchMs, x3, y.defaultBatchMs, y3, 4);
    ModeReadsBack(x.defaultPublishMode, x4, y.defaultPublishMode, y4);
    NumberLeReadsBack(x.maxTokens, Le(x.maxBytes, 8), y.maxTokens, Le(y.maxBytes, 8), 8);
    LeIsInjective(x.maxBytes, y.maxBytes, 8);
  }

  lemma SelectionReadsBack(x: Selection, y: Selection)
    requires SelectionOk(x) && SelectionOk(y) && SelectionBytes(x) == SelectionBytes(y)
    ensures x == y
  {
    var x2 := MatchersBytes(x.excludes) + ([0x1d] + TailBytes(x));
    var y2 := MatchersBytes(y.excludes) + ([0x1d] + TailBytes(y));
    var x1, y1 := MatchersBytes(x.includes) + ([0x1d] + x2), MatchersBytes(y.includes) + ([0x1d] + y2);
    SelectionIsRead(x);
    SelectionIsRead(y);
    var a, b := Ascii(SelectionModeText(x.mode)), Ascii(SelectionModeText(y.mode));
    SameLength([0x02], a + [0x1f] + x1, [0x02], b + [0x1f] + y1);
    SelectionModeReadsBack(x.mode, x1, y.mode, y1);
    MatchersReadBack(x.includes, x2, y.includes, y2);
    MatchersReadBack(x.excludes, TailBytes(x), y.excludes, TailBytes(y));
    TailReadsBack(x, y);
  }

  lemma SelectionIsRead(x: Selection)
    ensures SelectionBytes(x) == [0x02] + (Ascii(SelectionModeText(x.mode)) + [0x1f]
      + (MatchersBytes(x.includes) + ([0x1d] + (MatchersBytes(x.excludes) + ([0x1d] + TailBytes(x))))))
  {
    var excluded := MatchersBytes(x.excludes) + [0x1d] + TailBytes(x);
    Associate(MatchersBytes(x.excludes), [0x1d], TailBytes(x));
    Associate(MatchersBytes(x.includes), [0x1d], excluded);
  }

  // ---------------------------------------------------------------------------------------------
  // Where the selection block starts
  // ---------------------------------------------------------------------------------------------

  /** After the `k`-th end of a text among five, what must come next in matchers: the end of the matcher, or the
      mark of the next text. */
  predicate Next(k: nat, c: byte) {
    if k == 0 then c == 0x1e else c == 0x00 || c == 0x01
  }

  /** The ends of texts come in matchers' measure: `k` texts of a matcher were read before. */
  predicate Paced(b: Bytes, k: nat)
    requires k < 5
  {
    b != [] ==>
      if b[0] == 0x1f then
        var k' := (k + 1) % 5;
        |b| > 1 && Next(k', b[1]) && Paced(b[1..], k')
      else Paced(b[1..], k)
  }

  lemma {:induction false} PacedText(v: Bytes, r: Bytes, k: nat)
    requires k < 5 && 0x1f !in v
    ensures Paced(v + r, k) <==> Paced(r, k)
  {
    if v == [] {
      assert v + r == r;
    } else {
      assert (v + r)[1..] == v[1..] + r && (v + r)[0] == v[0];
      PacedText(v[1..], r, k);
    }
  }

  lemma PacedOpt(v: Option<Bytes>, r: Bytes, k: nat)
    requires k < 5 && OptLacks(v, 0x1f)
    ensures var k' := (k + 1) % 5; Paced(OptBytes(v) + r, k) <==> r != [] && Next(k', r[0]) && Paced(r, k')
  {
    var text, rest := [Mark(v)] + OrEmpty(v), [0x1f] + r;
    assert OptBytes(v) + r == text + rest;
    assert 0x1f !in text;
    PacedText(text, rest, k);
    assert rest[0] == 0x1f && rest[1..] == r;
  }

  /** Between two texts of one matcher. */
  lemma PacedPair(v: Option<Bytes>, w: Option<Bytes>, r: Bytes, k: nat)
    requires k < 5 && OptLacks(v, 0x1f)
    ensures var k' := (k + 1) % 5; Paced(OptBytes(v) + (OptBytes(w) + r), k) <==> k' != 0 && Paced(OptBytes(w) + r, k')
  {
    var rest := OptBytes(w) + r;
    assert rest[0] == Mark(w);
    PacedOpt(v, rest, k);
  }

  /** After the last one. */
  lemma PacedLast(v: Option<Bytes>, r: Bytes, k: nat)
    requires k < 5 && OptLacks(v, 0x1f)
    ensures Paced(OptBytes(v) + ([0x1e] + r), k) <==> k == 4 && Paced(r, 0)
  {
    var rest := [0x1e] + r;
    assert rest[0] == 0x1e && rest[1..] == r;
    PacedOpt(v, rest, k);
  }

  /** A matcher keeps the measure exactly when it starts with it. */
  lemma PacedMatcher(m: Matcher, r: Bytes, k: nat)
    requires k < 5 && MatcherOk(m)
    ensures Paced(MatcherBytes(m) + r, k) <==> k == 0 && Paced(r, 0)
  {
    MatcherIsRead(m, r);
    PacedThen(m, r, k);
  }

  lemma PacedThen(m: Matcher, r: Bytes, k: nat)
    requires k < 5 && MatcherOk(m)
    ensures Paced(MatcherThen(m, r), k) <==> k == 0 && Paced(r, 0)
  {
    PacedFive(m.category, m.kind, m.subKind, m.idMatch, m.path, r, k);
  }

  lemma PacedFive(v: Option<Bytes>, w: Option<Bytes>, x: Option<Bytes>, y: Option<Bytes>, z: Option<Bytes>, r: Bytes,
                  k: nat)
    requires k < 5 && OptLacks(v, 0x1f) && OptLacks(w, 0x1f) && OptLacks(x, 0x1f) && OptLacks(y, 0x1f)
    requires OptLacks(z, 0x1f)
    ensures Paced(OptBytes(v) + (OptBytes(w) + (OptBytes(x) + (OptBytes(y) + (OptBytes(z) + ([0x1e] + r))))), k)
            <==> k == 0 && Paced(r, 0)
  {
    var rest := OptBytes(y) + (OptBytes(z) + ([0x1e] + r));
    PacedPair(v, w, OptBytes(x) + rest, k);
    PacedPair(w, x, rest, (k + 1) % 5);
    PacedThree(x, y, z, r, (k + 2) % 5);
  }

  lemma PacedThree(x: Option<Bytes>, y: Option<Bytes>, z: Option<Bytes>, r: Bytes, k: nat)
    requires k < 5 && OptLacks(x, 0x1f) && OptLacks(y, 0x1f) && OptLacks(z, 0x1f)
    ensures Paced(OptBytes(x) + (OptBytes(y) + (OptBytes(z) + ([0x1e] + r))), k) <==> k == 2 && Paced(r, 0)
  {
    PacedPair(x, y, OptBytes(z) + ([0x1e] + r), k);
    PacedPair(y, z, [0x1e] + r, (k + 1) % 5);
    PacedLast(z, r, (k + 2) % 5);
  }

  lemma {:induction false} PacedMatchers(ms: seq<Matcher>, r: Bytes)
    requires forall m :: m in ms ==> MatcherOk(m)
    ensures Paced(MatchersBytes(ms) + r, 0) <==> Paced(r, 0)
  {
    if ms == [] {
      assert MatchersBytes(ms) + r == r;
    } else {
      assert ms[0] in ms;
      Associate(MatcherBytes(ms[0]), MatchersBytes(ms[1..]), r);
      PacedMatcher(ms[0], MatchersBytes(ms[1..]) + r, 0);
      PacedMatchers(ms[1..], r);
    }
  }

  /** Cutting something off the front leaves the measure, from some count on. */
  lemma {:induction false} PacedAfter(z: Bytes, r: Bytes, k: nat) returns (k': nat)
    requires k < 5 && Paced(z + r, k)
    ensures k' < 5 && Paced(r, k')
  {
    if z == [] {
      assert z + r == r;
      k' := k;
    } else {
      assert (z + r)[1..] == z[1..] + r;
      k' := PacedAfter(z[1..], r, if z[0] == 0x1f then (k + 1) % 5 else k);
    }
  }

  /** The two lists of a selection, with their ends. */
  function ListsBytes(s: Selection): Bytes {
    MatchersBytes(s.includes) + ([0x1d] + (MatchersBytes(s.excludes) + [0x1d]))
  }

  function ModeBytes(s: Selection): Bytes {
    [0x02] + Ascii(SelectionModeText(s.mode))
  }

  lemma SelectionInParts(s: Selection)
    ensures SelectionBytes(s) == ModeBytes(s) + [0x1f] + ListsBytes(s) + TailBytes(s)
  {
    RegroupBlock([0x02], Ascii(SelectionModeText(s.mode)), [0x1f], MatchersBytes(s.includes), [0x1d],
                 MatchersBytes(s.excludes), TailBytes(s));
  }

  lemma RegroupBlock(h: Bytes, mode: Bytes, e: Bytes, inc: Bytes, d: Bytes, exc: Bytes, tail: Bytes)
    ensures h + (mode + e + (inc + d + (exc + d + tail))) == h + mode + e + (inc + (d + (exc + d))) + tail
  {
    Associate(inc, d, exc + d + tail);
    Associate(d, exc + d, tail);
    Associate(inc, d + (exc + d), tail);
    var lists := inc + (d + (exc + d));
    Associate(mode + e, lists, tail);
    Associate(h, mode + e + lists, tail);
    Associate(h, mode + e, lists);
    Associate(h, mode, e);
  }

  lemma ListsArePaced(s: Selection)
    requires SelectionOk(s)
    ensures Paced(ListsBytes(s), 0)
  {
    PacedMatchers(s.includes, [0x1d] + (MatchersBytes(s.excludes) + [0x1d]));
    PacedText([0x1d], MatchersBytes(s.excludes) + [0x1d], 0);
    PacedMatchers(s.excludes, [0x1d]);
    PacedText([0x1d], [], 0);
    assert [0x1d] + [] == [0x1d];
  }

  lemma ListsHead(s: Selection)
    ensures ListsBytes(s) != [] && ListsBytes(s)[0] != 0x1e
    ensures s.includes == [] ==> ListsBytes(s)[0] == 0x1d
    ensures s.includes != [] ==> exists r :: ListsBytes(s) == MatcherBytes(s.includes[0]) + r
  {
    var rest := [0x1d] + (MatchersBytes(s.excludes) + [0x1d]);
    if s.includes != [] {
      MatcherHead(s.includes[0]);
      Regroup(MatcherBytes(s.includes[0]), MatchersBytes(s.includes[1..]), rest);
    }
  }

  /** The end of the mode of a block, with the block's lists after it, stands in no measure. */
  lemma NoBlockInMeasure(s: Selection, k: nat)
    requires SelectionOk(s) && k < 5
    ensures !Paced([0x1f] + ListsBytes(s), k)
  {
    var lists := ListsBytes(s);
    assert ([0x1f] + lists)[1..] == lists && ([0x1f] + lists)[0] == 0x1f;
    ListsHead(s);
    if s.includes != [] {
      var r :| lists == MatcherBytes(s.includes[0]) + r;
      assert s.includes[0] in s.includes;
      PacedMatcher(s.includes[0], r, (k + 1) % 5);
    }
  }

  /** A block is never written like signals followed by a block. */
  lemma NoSignalsInABlock(xs: seq<Signal>, x: Selection, y: Selection)
    requires xs != [] && SignalsOk(xs) && SelectionOk(x) && SelectionOk(y)
    ensures SignalsBytes(xs) + SelectionBytes(x) != SelectionBytes(y)
  {
    if SignalsBytes(xs) + SelectionBytes(x) == SelectionBytes(y) {
      WithoutTails(xs, x, y);
      var front := SignalAfterId(xs[0]) + SignalsBytes(xs[1..]) + ModeBytes(x);
      FirstEnd(xs, x);
      ModeLacksTheEnd(y);
      assert xs[0] in xs;
      UpTo(xs[0].id, front + ([0x1f] + ListsBytes(x)), ModeBytes(y), ListsBytes(y), 0x1f);
      ListsArePaced(y);
      var k := PacedAfter(front, [0x1f] + ListsBytes(x), 0);
      NoBlockInMeasure(x, k);
    }
  }

  lemma WithoutTails(xs: seq<Signal>, x: Selection, y: Selection)
    requires SignalsBytes(xs) + SelectionBytes(x) == SelectionBytes(y)
    ensures SignalsBytes(xs) + (ModeBytes(x) + [0x1f] + ListsBytes(x)) == ModeBytes(y) + [0x1f] + ListsBytes(y)
  {
    var front := ModeBytes(x) + [0x1f] + ListsBytes(x);
    SelectionInParts(x);
    SelectionInParts(y);
    Associate(SignalsBytes(xs), front, TailBytes(x));
    TailLength(x);
    TailLength(y);
    SameTail(SignalsBytes(xs) + front, TailBytes(x), ModeBytes(y) + [0x1f] + ListsBytes(y), TailBytes(y));
  }

  lemma TailLength(s: Selection)
    ensures |TailBytes(s)| == 37
  {
    assert |ModeText(s.defaultPublishMode)| == 8;
  }

  lemma SameTail(a: Bytes, r: Bytes, b: Bytes, s: Bytes)
    requires |r| == |s| && a + r == b + s
    ensures a == b && r == s
  {
    assert |a| == |b|;
    SameLength(a, r, b, s);
  }

  /** A signal's bytes after its id. */
  function SignalAfterId(s: Signal): Bytes {
    s.dataItemId + [0x1f] + (OptBytes(s.name) + (OptBytes(s.channel)
    + (BindingBytes(s.conditionBinding) + (PublishBytes(s.publish) + [0x1d]))))
  }

  lemma IdFirst(s: Signal)
    ensures SignalBytes(s) == s.id + [0x1f] + SignalAfterId(s)
  {
  }

  lemma FirstEnd(xs: seq<Signal>, x: Selection)
    requires xs != []
    ensures SignalsBytes(xs) + (ModeBytes(x) + [0x1f] + ListsBytes(x))
            == xs[0].id + [0x1f]
               + (SignalAfterId(xs[0]) + SignalsBytes(xs[1..]) + ModeBytes(x) + ([0x1f] + ListsBytes(x)))
  {
    IdFirst(xs[0]);
    SplitAtEnd(xs[0].id + [0x1f], SignalAfterId(xs[0]), SignalsBytes(xs[1..]), ModeBytes(x), [0x1f], ListsBytes(x));
  }

  lemma SplitAtEnd(a: Bytes, b: Bytes, c: Bytes, d: Bytes, e: Bytes, f: Bytes)
    ensures a + b + c + (d + e + f) == a + (b + c + d + (e + f))
  {
    Associate(a, b, c);
    Associate(d, e, f);
    Associate(a, b + c, d + (e + f));
    Associate(b + c, d, e + f);
  }

  lemma ModeLacksTheEnd(s: Selection)
    ensures 0x1f !in ModeBytes(s)
  {
    assert 0x1f !in Ascii(SelectionModeText(s.mode));
  }

  /** With a block the bytes end in the high byte of a budget no topic fills. */
  lemma BlockLast(s: Selection)
    requires SelectionOk(s)
    ensures SelectionBytes(s) != [] && SelectionBytes(s)[|SelectionBytes(s)| - 1] == 0x00
  {
    SelectionInParts(s);
    Widths();
    LeHigh(s.maxBytes, 8);
    var tail := TailBytes(s);
    assert tail[|tail| - 1] == Le(s.maxBytes, 8)[7];
  }

  lemma {:induction false} LeHigh(n: nat, width: nat)
    requires width > 0 && n < Pow256(width - 1)
    ensures Le(n, width)[width - 1] == 0
  {
    if width > 1 {
      LeHigh(n / 256, width - 1);
    }
  }

  // ---------------------------------------------------------------------------------------------
  // Configurations
  // ---------------------------------------------------------------------------------------------

  /** Whether there is a block can be told from the last byte. */
  lemma BlockIsTold(x: Config)
    requires ConfigOk(x)
    ensures var b := ConfigBytes(x); x.selection.Some? <==> b != [] && b[|b| - 1] == 0x00
  {
    if x.selection.Some? {
      BlockLast(x.selection.value);
    } else if x.signals != [] {
      SignalsLast(x.signals);
      assert SignalsBytes(x.signals) + [] == SignalsBytes(x.signals);
    }
  }

  /** Content addressing: two configurations of which each string avoids the bytes that end it are hashed as
      the same bytes exactly when they are the same. */
  lemma EqualBytesExactlyWhenEqual(x: Config, y: Config)
    requires ConfigOk(x) && ConfigOk(y)
    ensures ConfigBytes(x) == ConfigBytes(y) <==> x == y
  {
    if ConfigBytes(x) == ConfigBytes(y) {
      BlockIsTold(x);
      BlockIsTold(y);
      if x.selection.Some? {
        WithBlocksReadBack(x.signals, x.selection.value, y.signals, y.selection.value);
      } else {
        assert SignalsBytes(x.signals) + [] == SignalsBytes(y.signals) + [];
        SignalsAloneReadBack(x.signals, y.signals);
      }
    }
  }

  lemma SignalsAloneReadBack(xs: seq<Signal>, ys: seq<Signal>)
    requires SignalsOk(xs) && SignalsOk(ys) && SignalsBytes(xs) + [] == SignalsBytes(ys) + []
    ensures xs == ys
  {
    var front, us, vs := CommonFront(xs, [], ys, []);
    NoneLeft(us, vs);
  }

  lemma NoneLeft(xs: seq<Signal>, ys: seq<Signal>)
    requires (xs == [] || ys == []) && SignalsBytes(xs) + [] == SignalsBytes(ys) + []
    ensures xs == [] && ys == []
  {
    if xs != [] {
      SignalsLast(xs);
    }
    if ys != [] {
      SignalsLast(ys);
    }
  }

  lemma WithBlocksReadBack(xs: seq<Signal>, x: Selection, ys: seq<Signal>, y: Selection)
    requires SignalsOk(xs) && SignalsOk(ys) && SelectionOk(x) && SelectionOk(y)
    requires SignalsBytes(xs) + SelectionBytes(x) == SignalsBytes(ys) + SelectionBytes(y)
    ensures xs == ys && x == y
  {
    var front, us, vs := CommonFront(xs, SelectionBytes(x), ys, SelectionBytes(y));
    OnlyBlocksLeft(us, x, vs, y);
  }

  lemma OnlyBlocksLeft(xs: seq<Signal>, x: Selection, ys: seq<Signal>, y: Selection)
    requires (xs == [] || ys == []) && SignalsOk(xs) && SignalsOk(ys) && SelectionOk(x) && SelectionOk(y)
    requires SignalsBytes(xs) + SelectionBytes(x) == SignalsBytes(ys) + SelectionBytes(y)
    ensures xs == [] && ys == [] && x == y
  {
    if xs == [] {
      NothingBefore(xs, x);
      if ys != [] {
        NoSignalsInABlock(ys, y, x);
      }
    } else {
      NothingBefore(ys, y);
      NoSignalsInABlock(xs, x, y);
    }
    OnlyBlocks(xs, x, ys, y);
  }

  lemma NothingBefore(none: seq<Signal>, x: Selection)
    requires none == []
    ensures SignalsBytes(none) + SelectionBytes(x) == SelectionBytes(x)
  {
    var block := SelectionBytes(x);
    assert SignalsBytes(none) == [] && [] + block == block;
  }

  lemma OnlyBlocks(none: seq<Signal>, x: Selection, neither: seq<Signal>, y: Selection)
    requires none == neither == [] && SelectionOk(x) && SelectionOk(y)
    requires SignalsBytes(none) + SelectionBytes(x) == SignalsBytes(neither) + SelectionBytes(y)
    ensures x == y
  {
    NothingBefore(none, x);
    NothingBefore(neither, y);
    SelectionReadsBack(x, y);
  }

  // ---------------------------------------------------------------------------------------------
  // The format, byte by byte, on one configuration
  // ---------------------------------------------------------------------------------------------

  const SAMPLE_SIGNAL := Signal([0x78], [0x69], None, Some([0x63]), Some([[0x6b]]), Some(Publish(Interval, 5, None)))

  lemma PublishExample()
    ensures PublishBytes(Some(Publish(Interval, 5, None)))
            == [0x01] + [0x49, 0x6e, 0x74, 0x65, 0x72, 0x76, 0x61, 0x6c, 0x7c, 0x35, 0x7c, 0x4e, 0x6f, 0x6e, 0x65]
  {
    assert Decimal(5) == "5";
    assert Ascii("Interval") == [0x49, 0x6e, 0x74, 0x65, 0x72, 0x76, 0x61, 0x6c];
    assert Ascii("|") == [0x7c] && Ascii("5") == [0x35] && Ascii("None") == [0x4e, 0x6f, 0x6e, 0x65];
  }

  /** A signal: id, data item id, an absent name, a channel, a binding of one id, and publish settings. */
  lemma SignalExample()
    ensures SignalBytes(SAMPLE_SIGNAL)
            == [0x78, 0x1f] + ([0x69, 0x1f] + ([0x00, 0x1f] + ([0x01, 0x63, 0x1f] + ([0x01, 0x6b, 0x1e, 0x1f]
               + ([0x01, 0x49, 0x6e, 0x74, 0x65, 0x72, 0x76, 0x61, 0x6c, 0x7c, 0x35, 0x7c, 0x4e, 0x6f, 0x6e, 0x65]
                  + [0x1d])))))
  {
    PublishExample();
    assert OptBytes(None) == [0x00, 0x1f] && OptBytes(Some([0x63])) == [0x01, 0x63, 0x1f];
    assert ItemsBytes([[0x6b]]) == [0x6b] + [0x1e] + ItemsBytes([]);
    assert BindingBytes(Some([[0x6b]])) == [0x01, 0x6b, 0x1e, 0x1f];
    assert [0x78] + [0x1f] == [0x78, 0x1f] && [0x69] + [0x1f] == [0x69, 0x1f];
    assert [0x01] + [0x49, 0x6e, 0x74, 0x65, 0x72, 0x76, 0x61, 0x6c, 0x7c, 0x35, 0x7c, 0x4e, 0x6f, 0x6e, 0x65]
           == [0x01, 0x49, 0x6e, 0x74, 0x65, 0x72, 0x76, 0x61, 0x6c, 0x7c, 0x35, 0x7c, 0x4e, 0x6f, 0x6e, 0x65];
  }

  const SAMPLE_MATCHER := Matcher(Some([0x63]), Some([0x74]), None, Some([0x69]), Some([0x70]))
  const SAMPLE_SELECTION := Selection(Include, [SAMPLE_MATCHER], [SAMPLE_MATCHER, SAMPLE_MATCHER], 500, true, 256,
                                      OnChange, 3, 210)

  lemma MatcherExample()
    ensures MatcherBytes(SAMPLE_MATCHER)
            == [0x01, 0x63, 0x1f, 0x01, 0x74, 0x1f, 0x00, 0x1f, 0x01, 0x69, 0x1f, 0x01, 0x70, 0x1f, 0x1e]
  {
    assert OptBytes(None) == [0x00, 0x1f] && OptBytes(Some([0x63])) == [0x01, 0x63, 0x1f];
    assert OptBytes(Some([0x74])) == [0x01, 0x74, 0x1f] && OptBytes(Some([0x69])) == [0x01, 0x69, 0x1f];
    assert OptBytes(Some([0x70])) == [0x01, 0x70, 0x1f];
  }

  lemma NumbersExample()
    ensures Le(500, 8) == [0xf4, 0x01, 0, 0, 0, 0, 0, 0] && Le(256, 4) == [0, 1, 0, 0]
    ensures Le(3, 8) == [3, 0, 0, 0, 0, 0, 0, 0] && Le(210, 8) == [210, 0, 0, 0, 0, 0, 0, 0]
  {
    ZeroBytes();
    assert Le(500, 8) == [0xf4] + Le(1, 7) && Le(1, 7) == [0x01] + Le(0, 6);
    assert Le(256, 4) == [0] + Le(1, 3) && Le(1, 3) == [1] + Le(0, 2);
    assert Le(3, 8) == [3] + Le(0, 7) && Le(210, 8) == [210] + Le(0, 7);
  }

  lemma ZeroBytes()
    ensures Le(0, 2) == [0, 0] && Le(0, 6) == [0, 0, 0, 0, 0, 0] && Le(0, 7) == [0, 0, 0, 0, 0, 0, 0]
  {
    assert Le(0, 1) == [0] + Le(0, 0) == [0];
    assert Le(0, 2) == [0] + Le(0, 1);
    assert Le(0, 3) == [0] + Le(0, 2);
    assert Le(0, 4) == [0] + Le(0, 3);
    assert Le(0, 5) == [0] + Le(0, 4);
    assert Le(0, 6) == [0] + Le(0, 5);
    assert Le(0, 7) == [0] + Le(0, 6);
  }

  /** A selection: its mark and mode, both lists with their ends, and its settings, numbers with the low byte first. */
  lemma SelectionExample()
    ensures var m := [0x01, 0x63, 0x1f, 0x01, 0x74, 0x1f, 0x00, 0x1f, 0x01, 0x69, 0x1f, 0x01, 0x70, 0x1f, 0x1e];
            SelectionBytes(SAMPLE_SELECTION)
            == [0x02] + ([0x69, 0x6e, 0x63, 0x6c, 0x75, 0x64, 0x65] + [0x1f]
               + (m + [0x1d] + (m + m + [0x1d] + TailBytes(SAMPLE_SELECTION))))
  {
    var m := SAMPLE_MATCHER;
    MatcherExample();
    assert [m][1..] == [] && [m, m][1..] == [m];
    assert MatchersBytes([m]) == MatcherBytes(m) + [] && MatchersBytes([m, m]) == MatcherBytes(m) + MatchersBytes([m]);
    assert Ascii("include") == [0x69, 0x6e, 0x63, 0x6c, 0x75, 0x64, 0x65];
  }

  lemma TailExample()
    ensures TailBytes(SAMPLE_SELECTION)
            == [0xf4, 0x01, 0, 0, 0, 0, 0, 0] + ([1] + ([0, 1, 0, 0] + ([0x4f, 0x6e, 0x43, 0x68, 0x61, 0x6e, 0x67, 0x65]
               + ([3, 0, 0, 0, 0, 0, 0, 0] + [210, 0, 0, 0, 0, 0, 0, 0]))))
  {
    NumbersExample();
    assert Ascii("OnChange") == [0x4f, 0x6e, 0x43, 0x68, 0x61, 0x6e, 0x67, 0x65];
  }

  /** A configuration: its signals in order, then its selection. */
  lemma ConfigInOrder(a: Signal, b: Signal, s: Selection)
    ensures ConfigBytes(Config([a, b], Some(s))) == SignalBytes(a) + SignalBytes(b) + SelectionBytes(s)
    ensures ConfigBytes(Config([a, b], None)) == SignalBytes(a) + SignalBytes(b)
  {
    assert [a, b] == [a] + [b] && [a][1..] == [] && [b][1..] == [];
    SignalsConcat([a], [b]);
    assert SignalsBytes([a]) == SignalBytes(a) + [] && SignalsBytes([b]) == SignalBytes(b) + [];
  }

  lemma OtherWords()
    ensures SelectionModeText(Explicit) == "explicit" && SelectionModeText(All) == "all"
    ensures DeadbandBytes(Some([0x31])) == [0x53, 0x6f, 0x6d, 0x65, 0x28, 0x31, 0x29]
  {
    assert Ascii("Some(") == [0x53, 0x6f, 0x6d, 0x65, 0x28] && Ascii(")") == [0x29];
  }
}
