/** The bytes a text of a configuration may not contain, lest it be hashed like another (src/reload.rs). */
module Collisions {
  import opened Common
  import opened Encoding

  // ---------------------------------------------------------------------------------------------
  // The configurations validation lets through
  // ---------------------------------------------------------------------------------------------

  /** Nothing but white space, as far as it is ASCII. */
  predicate Blank(text: Bytes) {
    forall b :: b in text ==> b == 0x20 || 0x09 <= b <= 0x0d
  }

  /** What a printed number consists of. */
  predicate Numeric(text: Bytes) {
    forall b :: b in text ==> '0' as int <= b <= '9' as int || b in Ascii("-.e")
  }

  predicate SignalReceivable(s: Signal) {
    && !Blank(s.dataItemId)
    && (s.conditionBinding.Some? ==> s.dataItemId !in s.conditionBinding.value)
    && (s.publish.Some? ==>
          s.publish.value.batchMs < U32 && (s.publish.value.deadband.Some? ==> Numeric(s.publish.value.deadband.value)))
  }

  predicate MatcherReceivable(m: Matcher) {
    m.category.Some? ==> m.category.value in {Ascii("SAMPLE"), Ascii("EVENT"), Ascii("CONDITION")}
  }

  predicate SelectionReceivable(s: Selection) {
    && 1 <= s.maxSignals < U64
    && (s.mode == Explicit ==> s.includes == [] && s.excludes == [])
    && (s.mode == Include ==> s.includes != [])
    && (s.mode == All ==> s.includes == [])
    && (forall m :: m in s.includes ==> MatcherReceivable(m)) && (forall m :: m in s.excludes ==> MatcherReceivable(m))
    && s.defaultBatchMs < U32
    && s.maxTokens <= MAX_TOPIC_SLASHES && s.maxBytes <= MAX_TOPIC_BYTES
  }

  predicate Receivable(c: Config) {
    && (forall i, j :: 0 <= i < j < |c.signals| ==> c.signals[i].id != c.signals[j].id)
    && (forall s :: s in c.signals ==> SignalReceivable(s))
    && (c.selection.Some? ==> SelectionReceivable(c.selection.value))
  }

  // ---------------------------------------------------------------------------------------------
  // Which bytes the texts may be made of
  // ---------------------------------------------------------------------------------------------

  predicate TextOver(text: Bytes, p: set<byte>) {
    forall b :: b in text ==> b in p
  }

  predicate OptOver(v: Option<Bytes>, p: set<byte>) {
    v.Some? ==> TextOver(v.value, p)
  }

  predicate SignalOver(s: Signal, p: set<byte>) {
    && TextOver(s.id, p) && TextOver(s.dataItemId, p) && OptOver(s.name, p) && OptOver(s.channel, p)
    && (s.conditionBinding.Some? ==> forall c :: c in s.conditionBinding.value ==> TextOver(c, p))
  }

  predicate MatcherOver(m: Matcher, p: set<byte>) {
    OptOver(m.kind, p) && OptOver(m.subKind, p) && OptOver(m.idMatch, p) && OptOver(m.path, p)
  }

  /** Every text an operator chooses freely is made of these bytes. */
  predicate Over(c: Config, p: set<byte>) {
    && (forall s :: s in c.signals ==> SignalOver(s, p))
    && (c.selection.Some? ==>
          && (forall m :: m in c.selection.value.includes ==> MatcherOver(m, p))
          && (forall m :: m in c.selection.value.excludes ==> MatcherOver(m, p)))
  }

  /** No two configurations that validation lets through, with texts over these bytes, are hashed as the same. */
  ghost predicate AllToldApart(p: set<byte>) {
    forall x: Config, y: Config | Over(x, p) && Over(y, p) && Receivable(x) && Receivable(y) ::
      ConfigBytes(x) == ConfigBytes(y) ==> x == y
  }

  lemma OverIsOk(c: Config, p: set<byte>)
    requires Receivable(c) && Over(c, p) && 0x1e !in p && 0x1f !in p
    ensures ConfigOk(c)
  {
    forall s | s in c.signals ensures SignalOk(s) {
      assert SignalReceivable(s) && SignalOver(s, p);
      assert 0x1d !in Ascii("-.e");
    }
    if c.selection.Some? {
      forall m | m in c.selection.value.includes || m in c.selection.value.excludes ensures MatcherOk(m) {
        assert MatcherReceivable(m) && MatcherOver(m, p);
        WordsLackTheEnd();
      }
    }
  }

  lemma WordsLackTheEnd()
    ensures 0x1f !in Ascii("SAMPLE") && 0x1f !in Ascii("EVENT") && 0x1f !in Ascii("CONDITION")
  {
  }

  function Plain(id: Bytes, item: Bytes, binding: Option<seq<Bytes>>): Signal {
    Signal(id, item, None, None, binding, None)
  }

  function Single(s: Signal): Config {
    Config([s], None)
  }

  lemma SingleBytes(s: Signal)
    ensures ConfigBytes(Single(s)) == SignalBytes(s)
  {
    SignalsOfOneOrTwo(s, s);
    assert SignalBytes(s) + [] == SignalBytes(s);
  }

  /** Two bound ids without a byte read like one separator. */
  lemma SeparatorConfuses(p: set<byte>)
    requires 0x1e in p
    ensures !AllToldApart(p)
  {
    var one := Plain([0x1e], [0x1e, 0x1e], Some([[0x1e]]));
    var two := Plain([0x1e], [0x1e, 0x1e], Some([[], []]));
    SplitItem([], []);
    assert [] + [0x1e] + [] == [0x1e];
    SingleBytes(one);
    SingleBytes(two);
    assert 0x1e in one.dataItemId && !Blank(one.dataItemId);
    assert SignalReceivable(one) && SignalReceivable(two);
    assert one.conditionBinding.value[0] == [0x1e] && |two.conditionBinding.value| == 2;
    assert Over(Single(one), p) && Over(Single(two), p) && Receivable(Single(one)) && Receivable(Single(two));
    assert Single(one).signals[0] != Single(two).signals[0];
  }

  /** An end of texts may be the id's last byte or the data item id's first. */
  lemma EndConfuses(p: set<byte>)
    requires 0x1f in p
    ensures !AllToldApart(p)
  {
    var one, two := Plain([0x1f, 0x1f], [0x1f], None), Plain([0x1f], [0x1f, 0x1f], None);
    EndMoves([0x1f], [], [0x1f], two);
    assert [0x1f] + [0x1f] + [] == [0x1f, 0x1f] && [] + [0x1f] + [0x1f] == [0x1f, 0x1f];
    SingleBytes(one);
    SingleBytes(two);
    assert 0x1f in one.dataItemId && 0x1f in two.dataItemId && !Blank(one.dataItemId) && !Blank(two.dataItemId);
    assert Over(Single(one), p) && Over(Single(two), p) && Receivable(Single(one)) && Receivable(Single(two));
    assert Single(one).signals[0] != Single(two).signals[0];
  }

  /** Content addressing over every alphabet: the configurations validation lets through are told apart by
      what is hashed of them exactly when their texts hold neither the separator of bound ids nor the end of texts. */
  lemma ToldApartExactlyWhen(p: set<byte>)
    ensures AllToldApart(p) <==> 0x1e !in p && 0x1f !in p
  {
    if 0x1e in p {
      SeparatorConfuses(p);
    } else if 0x1f in p {
      EndConfuses(p);
    } else {
      forall x: Config, y: Config | Over(x, p) && Over(y, p) && Receivable(x) && Receivable(y)
        ensures ConfigBytes(x) == ConfigBytes(y) ==> x == y
      {
        OverIsOk(x, p);
        OverIsOk(y, p);
        EqualBytesExactlyWhenEqual(x, y);
      }
    }
  }

  // ---------------------------------------------------------------------------------------------
  // An end in an id, or a separator in a bound id: every such configuration shares its bytes with another
  // ---------------------------------------------------------------------------------------------

  /** A configuration with one signal in another's place. */
  function With(c: Config, k: nat, s: Signal): Config
    requires k < |c.signals|
  {
    c.(signals := c.signals[k := s])
  }

  /** No other signal has the id. */
  predicate IdIsFree(c: Config, k: nat, id: Bytes) {
    forall j :: 0 <= j < |c.signals| && j != k ==> c.signals[j].id != id
  }

  predicate Binds(s: Signal, item: Bytes) {
    s.conditionBinding.Some? && item in s.conditionBinding.value
  }

  lemma StillReceivable(c: Config, k: nat, s: Signal)
    requires k < |c.signals| && Receivable(c) && SignalReceivable(s) && IdIsFree(c, k, s.id)
    ensures Receivable(With(c, k, s))
  {
    forall x | x in With(c, k, s).signals ensures SignalReceivable(x) {
      assert x == s || x in c.signals;
    }
  }

  lemma SignalsSwap(signals: seq<Signal>, k: nat, other: Signal)
    requires k < |signals| && SignalBytes(other) == SignalBytes(signals[k])
    ensures SignalsBytes(signals[k := other]) == SignalsBytes(signals)
  {
    var swapped := signals[k := other];
    assert signals == signals[..k + 1] + signals[k + 1..];
    assert swapped == swapped[..k + 1] + signals[k + 1..] && swapped[..k] == signals[..k];
    SignalsConcat(signals[..k + 1], signals[k + 1..]);
    SignalsConcat(swapped[..k + 1], signals[k + 1..]);
    OneSignalMore(signals, k);
    OneSignalMore(swapped, k);
  }

  /** One signal written like another is enough. */
  lemma DoubleOf(c: Config, k: nat, other: Signal)
    requires k < |c.signals| && other != c.signals[k] && SignalBytes(other) == SignalBytes(c.signals[k])
    ensures With(c, k, other) != c && ConfigBytes(With(c, k, other)) == ConfigBytes(c)
  {
    SignalsSwap(c.signals, k, other);
    assert With(c, k, other).signals[k] != c.signals[k];
  }

  /** An end between an id and a data item id may be any of the ends there. */
  lemma EndMoves(a: Bytes, b: Bytes, c: Bytes, s: Signal)
    ensures SignalBytes(s.(id := a + [0x1f] + b, dataItemId := c))
            == SignalBytes(s.(id := a, dataItemId := b + [0x1f] + c))
  {
    var id, item := s.(id := a + [0x1f] + b, dataItemId := c), s.(id := a, dataItemId := b + [0x1f] + c);
    InParts(id);
    InParts(item);
    MoveEnd(a, b, c, AfterItem(s));
  }

  lemma MoveEnd(a: Bytes, b: Bytes, c: Bytes, after: Bytes)
    ensures (a + [0x1f] + b) + [0x1f] + (c + [0x1f] + after) == a + [0x1f] + ((b + [0x1f] + c) + [0x1f] + after)
  {
    assert (b + [0x1f] + c) + [0x1f] + after == b + [0x1f] + (c + [0x1f] + after);
    assert (a + [0x1f] + b) + [0x1f] + (c + [0x1f] + after) == a + [0x1f] + (b + [0x1f] + (c + [0x1f] + after));
  }

  lemma NotBlank(a: Bytes, b: Bytes)
    ensures !Blank(a + [0x1f] + b)
  {
    assert 0x1f in a + [0x1f] + b;
  }

  /** A configuration with the end of texts inside the id of a signal shares its bytes, and its generation, with the one
      whose id ends there; validation lets that through too, unless the shorter id is taken or the longer data item id
      is bound. */
  lemma EndInIdCollides(c: Config, k: nat, p: Bytes, q: Bytes)
    requires k < |c.signals| && c.signals[k].id == p + [0x1f] + q
    ensures var s := c.signals[k];
            var item := q + [0x1f] + s.dataItemId;
            var other := With(c, k, s.(id := p, dataItemId := item));
            && other != c && ConfigBytes(other) == ConfigBytes(c)
            && (Receivable(c) && IdIsFree(c, k, p) && !Binds(s, item) ==> Receivable(other))
  {
    var s := c.signals[k];
    var t := s.(id := p, dataItemId := q + [0x1f] + s.dataItemId);
    EndMoves(p, q, s.dataItemId, s);
    assert s == s.(id := p + [0x1f] + q, dataItemId := s.dataItemId);
    assert |p| < |s.id|;
    DoubleOf(c, k, t);
    NotBlank(q, s.dataItemId);
    if Receivable(c) && IdIsFree(c, k, p) && !Binds(s, t.dataItemId) {
      assert SignalReceivable(s);
      StillReceivable(c, k, t);
    }
  }

  /** Likewise inside the data item id, with the one whose id goes on to there. */
  lemma EndInItemCollides(c: Config, k: nat, p: Bytes, q: Bytes)
    requires k < |c.signals| && c.signals[k].dataItemId == p + [0x1f] + q
    ensures var s := c.signals[k];
            var id := s.id + [0x1f] + p;
            var other := With(c, k, s.(id := id, dataItemId := q));
            && other != c && ConfigBytes(other) == ConfigBytes(c)
            && (Receivable(c) && IdIsFree(c, k, id) && !Binds(s, q) && !Blank(q) ==> Receivable(other))
  {
    var s := c.signals[k];
    var t := s.(id := s.id + [0x1f] + p, dataItemId := q);
    EndMoves(s.id, p, q, s);
    assert s == s.(id := s.id, dataItemId := p + [0x1f] + q);
    assert |q| < |s.dataItemId|;
    DoubleOf(c, k, t);
    if Receivable(c) && IdIsFree(c, k, t.id) && !Binds(s, q) && !Blank(q) {
      assert SignalReceivable(s);
      StillReceivable(c, k, t);
    }
  }

  lemma SplitItem(p: Bytes, q: Bytes)
    ensures ItemsBytes([p + [0x1e] + q]) == ItemsBytes([p, q])
  {
    assert ItemsBytes([q]) == q + [0x1e] + ItemsBytes([]);
    assert [p, q][1..] == [q] && ItemsBytes([p, q]) == p + [0x1e] + ItemsBytes([q]);
    assert ItemsBytes([p + [0x1e] + q]) == p + [0x1e] + q + [0x1e] + ItemsBytes([]);
  }

  /** A binding one of whose ids contains the separator is written like one with two ids in its place. */
  lemma SeparatorSplits(before: seq<Bytes>, p: Bytes, q: Bytes, after: seq<Bytes>)
    ensures ItemsBytes(before + [p + [0x1e] + q] + after) == ItemsBytes(before + [p, q] + after)
  {
    ItemsConcat(before + [p + [0x1e] + q], after);
    ItemsConcat(before, [p + [0x1e] + q]);
    ItemsConcat(before + [p, q], after);
    ItemsConcat(before, [p, q]);
    SplitItem(p, q);
  }

  /** Likewise with the separator inside a bound id, with the one that binds the two parts; validation lets that through
      too, unless a part is the signal's own data item. */
  lemma SeparatorInBindingCollides(c: Config, k: nat, before: seq<Bytes>, p: Bytes, q: Bytes, after: seq<Bytes>)
    requires k < |c.signals| && c.signals[k].conditionBinding == Some(before + [p + [0x1e] + q] + after)
    ensures var s := c.signals[k];
            var other := With(c, k, s.(conditionBinding := Some(before + [p, q] + after)));
            && other != c && ConfigBytes(other) == ConfigBytes(c)
            && (Receivable(c) && s.dataItemId != p && s.dataItemId != q ==> Receivable(other))
  {
    var s := c.signals[k];
    var t := s.(conditionBinding := Some(before + [p, q] + after));
    SeparatorSplits(before, p, q, after);
    assert |t.conditionBinding.value| != |s.conditionBinding.value|;
    assert BindingBytes(t.conditionBinding) == BindingBytes(s.conditionBinding);
    DoubleOf(c, k, t);
    if Receivable(c) && s.dataItemId != p && s.dataItemId != q {
      assert SignalReceivable(s);
      forall x | x in t.conditionBinding.value ensures x == p || x == q || x in s.conditionBinding.value {
      }
      StillReceivable(c, k, t);
    }
  }

  // ---------------------------------------------------------------------------------------------
  // An end in another text: one signal or one matcher is written like two
  // ---------------------------------------------------------------------------------------------

  /** A bound id that starts like the end of a binding: it ends the binding, lacks a publish block, ends the signal,
      and runs into the binding of a second one. */
  function EndingId(b: Bytes, c: Bytes, d: Bytes): Bytes {
    [0x1f, 0x00, 0x1d] + (b + [0x1f] + (c + [0x1f, 0x00, 0x1f, 0x00, 0x1f, 0x01] + d))
  }

  lemma PlainShape(id: Bytes, item: Bytes, binding: Option<seq<Bytes>>)
    ensures SignalBytes(Plain(id, item, binding))
            == id + [0x1f] + (item + [0x1f] + ([0x00, 0x1f, 0x00, 0x1f] + (BindingBytes(binding) + [0x00, 0x1d])))
  {
    assert OptBytes(None) == [0x00, 0x1f] && PublishBytes(None) == [0x00];
    var rest := BindingBytes(binding) + ([0x00] + [0x1d]);
    assert [0x00, 0x1f] + ([0x00, 0x1f] + rest) == [0x00, 0x1f, 0x00, 0x1f] + rest;
    assert [0x00] + [0x1d] == [0x00, 0x1d];
  }

  lemma OneItemBinding(item: Bytes)
    ensures BindingBytes(Some([item])) == [0x01] + (item + [0x1e, 0x1f])
    ensures BindingBytes(Some([])) == [0x01, 0x1f]
  {
    assert ItemsBytes([item]) == item + [0x1e] + ItemsBytes([]);
    assert item + [0x1e] + [] + [0x1f] == item + [0x1e, 0x1f];
  }

  lemma EndingShape(a: Bytes, x: Bytes, b: Bytes, c: Bytes, d: Bytes)
    ensures a + [0x1f] + (x + [0x1f] + ([0x00, 0x1f, 0x00, 0x1f]
              + ([0x01] + (EndingId(b, c, d) + [0x1e, 0x1f]) + [0x00, 0x1d])))
            == (a + [0x1f] + (x + [0x1f] + ([0x00, 0x1f, 0x00, 0x1f] + ([0x01, 0x1f] + [0x00, 0x1d]))))
               + (b + [0x1f] + (c + [0x1f] + ([0x00, 0x1f, 0x00, 0x1f] + ([0x01] + (d + [0x1e, 0x1f]) + [0x00, 0x1d]))))
  {
    var last := d + [0x1e, 0x1f];
    var second := b + [0x1f] + (c + [0x1f, 0x00, 0x1f, 0x00, 0x1f, 0x01] + last + [0x00, 0x1d]);
    assert b + [0x1f] + (c + [0x1f] + ([0x00, 0x1f, 0x00, 0x1f] + ([0x01] + last + [0x00, 0x1d]))) == second;
    assert [0x01] + (EndingId(b, c, d) + [0x1e, 0x1f]) + [0x00, 0x1d] == [0x01, 0x1f] + [0x00, 0x1d] + second;
  }

  /** One signal with such an id is written like two signals. */
  lemma EndedReadsAsTwo(a: Bytes, x: Bytes, b: Bytes, c: Bytes, d: Bytes)
    ensures SignalBytes(Plain(a, x, Some([EndingId(b, c, d)])))
            == SignalBytes(Plain(a, x, Some([]))) + SignalBytes(Plain(b, c, Some([d])))
  {
    PlainShape(a, x, Some([EndingId(b, c, d)]));
    PlainShape(a, x, Some([]));
    PlainShape(b, c, Some([d]));
    OneItemBinding(EndingId(b, c, d));
    OneItemBinding(d);
    EndingShape(a, x, b, c, d);
  }

  lemma SignalsOfOneOrTwo(s: Signal, t: Signal)
    ensures SignalsBytes([s]) == SignalBytes(s) && SignalsBytes([s, t]) == SignalBytes(s) + SignalBytes(t)
  {
    assert [s][1..] == [] && [t][1..] == [] && [s, t][1..] == [t];
    assert SignalsBytes([t]) == SignalBytes(t) + [];
    assert SignalsBytes([s]) == SignalBytes(s) + [];
  }

  /** A bound id may not start with the byte that ends a binding: whatever the ids, one signal is then written like
      two, although it avoids the separator. */
  lemma EndInBindingCollides(a: Bytes, x: Bytes, b: Bytes, c: Bytes, d: Bytes)
    ensures var one := Config([Plain(a, x, Some([EndingId(b, c, d)]))], None);
            var two := Config([Plain(a, x, Some([])), Plain(b, c, Some([d]))], None);
            one != two && ConfigBytes(one) == ConfigBytes(two)
    ensures EndingId(b, c, d)[0] == 0x1f
    ensures 0x1e !in b && 0x1e !in c && 0x1e !in d ==> 0x1e !in EndingId(b, c, d)
  {
    EndedReadsAsTwo(a, x, b, c, d);
    SignalsOfOneOrTwo(Plain(a, x, Some([EndingId(b, c, d)])), Plain(a, x, Some([])));
    SignalsOfOneOrTwo(Plain(a, x, Some([])), Plain(b, c, Some([d])));
    assert |Config([Plain(a, x, Some([]))], None).signals| == 1;
  }

  function AfterChannel(s: Signal): Bytes {
    BindingBytes(s.conditionBinding) + (PublishBytes(s.publish) + [0x1d])
  }

  function AfterName(s: Signal): Bytes {
    OptBytes(s.channel) + AfterChannel(s)
  }

  function AfterItem(s: Signal): Bytes {
    OptBytes(s.name) + AfterName(s)
  }

  lemma InParts(s: Signal)
    ensures SignalBytes(s) == s.id + [0x1f] + (s.dataItemId + [0x1f] + AfterItem(s))
  {
  }

  /** A string that holds its own end, everything up to the like string of a second element, and that string. */
  function Swallowed(own: Bytes, after: Bytes, front: Bytes, other: Bytes): Bytes {
    own + [0x1f] + (after + front + other)
  }

  lemma SwallowedReadsAsTwo(front1: Bytes, own: Bytes, after1: Bytes, front2: Bytes, other: Bytes, after2: Bytes)
    ensures front1 + (Swallowed(own, after1, front2, other) + [0x1f] + after2)
            == front1 + (own + [0x1f] + after1) + (front2 + (other + [0x1f] + after2))
  {
    assert Swallowed(own, after1, front2, other) + [0x1f] + after2
           == own + [0x1f] + after1 + (front2 + (other + [0x1f] + after2));
  }

  lemma SomeInParts(v: Bytes, after: Bytes)
    ensures OptBytes(Some(v)) + after == [0x01] + (v + [0x1f] + after)
  {
  }

  /** Everything up to the text of a name. */
  function UpToName(s: Signal): Bytes {
    s.id + [0x1f] + (s.dataItemId + [0x1f]) + [0x01]
  }

  lemma NamedInParts(s: Signal)
    requires s.name.Some?
    ensures SignalBytes(s) == UpToName(s) + (s.name.value + [0x1f] + AfterName(s))
  {
    InParts(s);
    SomeInParts(s.name.value, AfterName(s));
  }

  /** A name may not contain the byte that ends it: whatever two named signals, one is then written like both. */
  lemma EndInNameCollides(t: Signal, s: Signal)
    requires t.name.Some? && s.name.Some?
    ensures var one := s.(id := t.id, dataItemId := t.dataItemId,
                          name := Some(Swallowed(t.name.value, AfterName(t), UpToName(s), s.name.value)));
            ConfigBytes(Config([one], None)) == ConfigBytes(Config([t, s], None))
  {
    var one := s.(id := t.id, dataItemId := t.dataItemId,
                  name := Some(Swallowed(t.name.value, AfterName(t), UpToName(s), s.name.value)));
    NamedInParts(t);
    NamedInParts(s);
    NamedInParts(one);
    SwallowedReadsAsTwo(UpToName(t), t.name.value, AfterName(t), UpToName(s), s.name.value, AfterName(s));
    SignalsOfOneOrTwo(one, s);
    SignalsOfOneOrTwo(t, s);
  }

  /** Everything up to the text of a channel. */
  function UpToChannel(s: Signal): Bytes {
    s.id + [0x1f] + (s.dataItemId + [0x1f]) + OptBytes(s.name) + [0x01]
  }

  lemma ChannelledInParts(s: Signal)
    requires s.channel.Some?
    ensures SignalBytes(s) == UpToChannel(s) + (s.channel.value + [0x1f] + AfterChannel(s))
  {
    InParts(s);
    SomeInParts(s.channel.value, AfterChannel(s));
    var tail := s.channel.value + [0x1f] + AfterChannel(s);
    assert AfterItem(s) == OptBytes(s.name) + ([0x01] + tail);
  }

  /** Nor a channel. */
  lemma EndInChannelCollides(t: Signal, s: Signal)
    requires t.channel.Some? && s.channel.Some?
    ensures var text := Swallowed(t.channel.value, AfterChannel(t), UpToChannel(s), s.channel.value);
            var one := s.(id := t.id, dataItemId := t.dataItemId, name := t.name, channel := Some(text));
            ConfigBytes(Config([one], None)) == ConfigBytes(Config([t, s], None))
  {
    var text := Swallowed(t.channel.value, AfterChannel(t), UpToChannel(s), s.channel.value);
    var one := s.(id := t.id, dataItemId := t.dataItemId, name := t.name, channel := Some(text));
    ChannelledInParts(t);
    ChannelledInParts(s);
    ChannelledInParts(one);
    SwallowedReadsAsTwo(UpToChannel(t), t.channel.value, AfterChannel(t), UpToChannel(s), s.channel.value,
                        AfterChannel(s));
    SignalsOfOneOrTwo(one, s);
    SignalsOfOneOrTwo(t, s);
  }

  /** The texts of a matcher, in the order they are written. */
  function Texts(m: Matcher): (vs: seq<Option<Bytes>>)
    ensures |vs| == 5
  {
    [m.category, m.kind, m.subKind, m.idMatch, m.path]
  }

  function FromTexts(vs: seq<Option<Bytes>>): Matcher
    requires |vs| == 5
  {
    Matcher(vs[0], vs[1], vs[2], vs[3], vs[4])
  }

  function TextsBytes(vs: seq<Option<Bytes>>): Bytes {
    if vs == [] then [] else OptBytes(vs[0]) + TextsBytes(vs[1..])
  }

  lemma MatcherInTexts(m: Matcher)
    ensures MatcherBytes(m) == TextsBytes(Texts(m)) + [0x1e]
  {
    MatcherIsRead(m, []);
    assert MatcherBytes(m) + [] == MatcherBytes(m) && [0x1e] + [] == [0x1e];
    FiveTexts(m.category, m.kind, m.subKind, m.idMatch, m.path);
  }

  lemma FiveTexts(v: Option<Bytes>, w: Option<Bytes>, x: Option<Bytes>, y: Option<Bytes>, z: Option<Bytes>)
    ensures TextsBytes([v, w, x, y, z]) + [0x1e]
            == OptBytes(v) + (OptBytes(w) + (OptBytes(x) + (OptBytes(y) + (OptBytes(z) + [0x1e]))))
  {
    ThreeTexts(x, y, z);
    assert [v] + [w, x, y, z] == [v, w, x, y, z] && [w] + [x, y, z] == [w, x, y, z];
    TextsStep(v, [w, x, y, z]);
    TextsStep(w, [x, y, z]);
  }

  lemma ThreeTexts(x: Option<Bytes>, y: Option<Bytes>, z: Option<Bytes>)
    ensures TextsBytes([x, y, z]) + [0x1e] == OptBytes(x) + (OptBytes(y) + (OptBytes(z) + [0x1e]))
  {
    assert [x] + [y, z] == [x, y, z] && [y] + [z] == [y, z] && [z] + [] == [z];
    TextsStep(x, [y, z]);
    TextsStep(y, [z]);
    TextsStep(z, []);
    assert TextsBytes([]) + [0x1e] == [0x1e];
  }

  lemma TextsStep(v: Option<Bytes>, vs: seq<Option<Bytes>>)
    ensures TextsBytes([v] + vs) + [0x1e] == OptBytes(v) + (TextsBytes(vs) + [0x1e])
  {
    assert ([v] + vs)[1..] == vs;
    Associate(OptBytes(v), TextsBytes(vs), [0x1e]);
  }

  lemma {:induction false} TextsConcat(a: seq<Option<Bytes>>, b: seq<Option<Bytes>>)
    ensures TextsBytes(a + b) == TextsBytes(a) + TextsBytes(b)
  {
    if a == [] {
      assert a + b == b;
    } else {
      assert (a + b)[0] == a[0] && (a + b)[1..] == a[1..] + b;
      TextsConcat(a[1..], b);
      Associate(OptBytes(a[0]), TextsBytes(a[1..]), TextsBytes(b));
    }
  }

  function UpToText(m: Matcher, k: nat): Bytes
    requires k < 5
  {
    TextsBytes(Texts(m)[..k]) + [0x01]
  }

  function AfterText(m: Matcher, k: nat): Bytes
    requires k < 5
  {
    TextsBytes(Texts(m)[k + 1..]) + [0x1e]
  }

  lemma MatcherAround(m: Matcher, k: nat, text: Bytes)
    requires k < 5 && Texts(m)[k] == Some(text)
    ensures MatcherBytes(m) == UpToText(m, k) + (text + [0x1f] + AfterText(m, k))
  {
    var front, back := Texts(m)[..k], Texts(m)[k + 1..];
    assert Texts(m) == front + ([Some(text)] + back);
    MatcherInTexts(m);
    TextsConcat(front, [Some(text)] + back);
    TextsStep(Some(text), back);
    Associate(TextsBytes(front), TextsBytes([Some(text)] + back), [0x1e]);
    SomeInParts(text, AfterText(m, k));
    Associate(TextsBytes(front), [0x01], text + [0x1f] + AfterText(m, k));
  }

  /** The matcher that goes on as the second one does after swallowing the first one's end. */
  function Swallower(t: Matcher, m: Matcher, k: nat): Matcher
    requires k < 5 && Texts(t)[k].Some? && Texts(m)[k].Some?
  {
    var text := Swallowed(Texts(t)[k].value, AfterText(t, k), UpToText(m, k), Texts(m)[k].value);
    FromTexts(Texts(t)[..k] + [Some(text)] + Texts(m)[k + 1..])
  }

  /** Nor may a type, a subtype, an id pattern or a path (`k` from 1 to 4): one matcher of a selection is then
      written like two. */
  lemma EndInMatcherCollides(s: Selection, t: Matcher, m: Matcher, k: nat)
    requires s.includes == [t, m] && 1 <= k < 5 && Texts(t)[k].Some? && Texts(m)[k].Some?
    ensures var one := s.(includes := [Swallower(t, m, k)]);
            one != s && SelectionBytes(one) == SelectionBytes(s)
            && (SelectionReceivable(s) ==> SelectionReceivable(one))
  {
    var one := Swallower(t, m, k);
    var text := Swallowed(Texts(t)[k].value, AfterText(t, k), UpToText(m, k), Texts(m)[k].value);
    var texts := Texts(t)[..k] + [Some(text)] + Texts(m)[k + 1..];
    assert Texts(one) == texts;
    assert texts[..k] == Texts(t)[..k] && texts[k + 1..] == Texts(m)[k + 1..];
    MatcherAround(t, k, Texts(t)[k].value);
    MatcherAround(m, k, Texts(m)[k].value);
    MatcherAround(one, k, text);
    SwallowedReadsAsTwo(UpToText(t, k), Texts(t)[k].value, AfterText(t, k), UpToText(m, k), Texts(m)[k].value,
                        AfterText(m, k));
    MatchersOfOneOrTwo(one, m);
    MatchersOfOneOrTwo(t, m);
    assert texts[0] == Texts(t)[0];
    assert t in s.includes;
    assert |[one]| == 1;
  }

  lemma MatchersOfOneOrTwo(t: Matcher, m: Matcher)
    ensures MatchersBytes([t]) == MatcherBytes(t) && MatchersBytes([t, m]) == MatcherBytes(t) + MatcherBytes(m)
  {
    assert [t][1..] == [] && [m][1..] == [] && [t, m][1..] == [m];
    assert MatchersBytes([m]) == MatcherBytes(m) + [] && MatchersBytes([t]) == MatcherBytes(t) + [];
  }
}
