/** The final check of pb_decode_noinit, for any order and number of fields. */
module PbRequired {
  import opened Common
  import opened PbWire
  import opened PbSchema
  import opened PbCodec
  import opened PbFields
  import opened PbRoundTrip

  /** The known tags that the decoding loop comes by, in order. */
  function TagsInOrder(mem: Memory, d: Desc, s: seq<byte>, st: Loop): seq<nat>
    decreases |s|
  {
    var t := DecTag(s);
    if s == [] || !t.Tag? then []
    else if Has(d, t.tag) then
      var f := FieldOf(d, t.tag);
      var entered := EnterFixed(d, f, st);
      if entered.None? then []
      else
        var next := DecField(mem, d, f, t.wireType, t.rest, MarkSeen(d, f, entered.value));
        [t.tag] + if next.None? then [] else TagsInOrder(mem, d, next.value.rest, next.value.value)
    else
      var skipped := SkipField(t.wireType, t.rest);
      if d.fields == [] || skipped.None? then [] else TagsInOrder(mem, d, skipped.value, st)
  }

  function TagsRead(mem: Memory, d: Desc, s: seq<byte>, st: Loop): set<nat> {
    set t <- TagsInOrder(mem, d, s, st)
  }

  predicate Counts(d: Desc, t: nat) {
    Has(d, t) && FieldOf(d, t).h == Required && RequiredIndex(d, t) < MAX_REQUIRED_FIELDS
  }

  function IndicesOf(d: Desc, tags: set<nat>): set<nat> {
    set t <- tags | Counts(d, t) :: RequiredIndex(d, t)
  }

  lemma FieldKeepsSeen(mem: Memory, d: Desc, f: Field, wireType: nat, s: seq<byte>, st: Loop)
    requires DecField(mem, d, f, wireType, s, st).Some?
    ensures DecField(mem, d, f, wireType, s, st).value.value.seen == st.seen
  {
  }

  /** The bits set at the end are those of the required fields that came by. */
  lemma {:induction false} SeenIsRead(mem: Memory, d: Desc, s: seq<byte>, st: Loop)
    requires DecLoop(mem, d, s, st).Some? && d.fields != []
    ensures DecLoop(mem, d, s, st).value.value.seen == st.seen + IndicesOf(d, TagsRead(mem, d, s, st))
    decreases |s|
  {
    hide DecTag, DecField, SkipField;
    var t := DecTag(s);
    if s != [] && t.Tag? {
      if Has(d, t.tag) {
        var f := FieldOf(d, t.tag);
        var marked := MarkSeen(d, f, EnterFixed(d, f, st).value);
        var next := DecField(mem, d, f, t.wireType, t.rest, marked).value;
        FieldKeepsSeen(mem, d, f, t.wireType, t.rest, marked);
        SeenIsRead(mem, d, next.rest, next.value);
        OneMoreTag(d, t.tag, TagsRead(mem, d, next.rest, next.value));
        assert TagsRead(mem, d, s, st) == {t.tag} + TagsRead(mem, d, next.rest, next.value);
      } else {
        SeenIsRead(mem, d, SkipField(t.wireType, t.rest).value, st);
      }
    }
  }

  lemma OneMoreTag(d: Desc, t: nat, tags: set<nat>)
    requires Has(d, t)
    ensures IndicesOf(d, {t} + tags) == (if Counts(d, t) then {RequiredIndex(d, t)} else {}) + IndicesOf(d, tags)
  {
    hide RequiredIndex, FieldOf, Has;
  }

  /** What pb_decode_noinit accepts: the loop gets through, the last fixed-count array is full, and
      each of the first 64 required fields has come by at least once. */
  lemma AcceptedWhenRequiredRead(mem: Memory, d: Desc, s: seq<byte>, m: Message)
    requires Distinct(d) && d.fields != []
    ensures var start := Loop(m, None, {});
      var r := DecLoop(mem, d, s, start);
      DecodeNoInit(mem, d, s, m).Some? <==>
        && r.Some? && FixedComplete(d, r.value.value)
        && forall j | 0 <= j < |d.fields| && d.fields[j].h == Required && RequiredBefore(d, j) < 64 ::
          d.fields[j].tag in TagsRead(mem, d, s, start)
  {
    hide DecLoop, TagsRead, FixedComplete;
    var start := Loop(m, None, {});
    if DecLoop(mem, d, s, start).Some? {
      SeenIsRead(mem, d, s, start);
      AllReadIffAllSeen(d, TagsRead(mem, d, s, start));
    }
  }

  lemma IndexRead(d: Desc, tags: set<nat>, t: nat)
    requires t in tags && Counts(d, t)
    ensures RequiredIndex(d, t) in IndicesOf(d, tags)
  {
  }

  lemma ReadAt(d: Desc, tags: set<nat>, j: nat)
    requires j < |d.fields| && d.fields[j].h == Required && RequiredBefore(d, j) in IndicesOf(d, tags)
    ensures d.fields[j].tag in tags
  {
    hide RequiredBefore;
    var t :| t in tags && Counts(d, t) && RequiredIndex(d, t) == RequiredBefore(d, j);
    SameRequired(d, IndexFrom(d.fields, t), j);
  }

  lemma AllReadIffAllSeen(d: Desc, tags: set<nat>)
    requires Distinct(d)
    ensures (forall k | 0 <= k < RequiredBefore(d, |d.fields|) && k < MAX_REQUIRED_FIELDS :: k in IndicesOf(d, tags)) <==>
      (forall j | 0 <= j < |d.fields| && d.fields[j].h == Required && RequiredBefore(d, j) < MAX_REQUIRED_FIELDS ::
        d.fields[j].tag in tags)
  {
    hide IndicesOf, RequiredBefore;
    if forall k | 0 <= k < RequiredBefore(d, |d.fields|) && k < MAX_REQUIRED_FIELDS :: k in IndicesOf(d, tags) {
      forall j | 0 <= j < |d.fields| && d.fields[j].h == Required && RequiredBefore(d, j) < MAX_REQUIRED_FIELDS
        ensures d.fields[j].tag in tags
      {
        RequiredIndexBelow(d, j, |d.fields|);
        ReadAt(d, tags, j);
      }
    }
    if forall j | 0 <= j < |d.fields| && d.fields[j].h == Required && RequiredBefore(d, j) < MAX_REQUIRED_FIELDS ::
        d.fields[j].tag in tags {
      forall k | 0 <= k < RequiredBefore(d, |d.fields|) && k < MAX_REQUIRED_FIELDS
        ensures k in IndicesOf(d, tags)
      {
        var j := RequiredAt(d, |d.fields|, k);
        FieldOfIndex(d, j);
        assert Counts(d, d.fields[j].tag) && RequiredIndex(d, d.fields[j].tag) == k;
        IndexRead(d, tags, d.fields[j].tag);
      }
    }
  }

  lemma SameRequired(d: Desc, i: nat, j: nat)
    requires i < |d.fields| && j < |d.fields| && d.fields[i].h == d.fields[j].h == Required
    requires RequiredBefore(d, i) == RequiredBefore(d, j)
    ensures i == j
  {
    if i < j {
      RequiredIndexBelow(d, i, j);
    } else if j < i {
      RequiredIndexBelow(d, j, i);
    }
  }

  // ---- Which fields are there in the end ----

  /** The last of these tags that belongs to the union `h`. */
  function LastOf(d: Desc, h: HType, tags: seq<nat>): Option<nat> {
    if tags == [] then None
    else
      var later := LastOf(d, h, tags[1..]);
      if later.Some? then later
      else if Has(d, tags[0]) && FieldOf(d, tags[0]).h == h then Some(tags[0]) else None
  }

  /** What the flags and the union tags say: an optional field is there if it was there before or has come
      by, and of a union only the member that came last, if any came. */
  predicate PresentAsRead(f: Field, d: Desc, before: Message, tags: seq<nat>, after: Message) {
    match f.h
    case Optional(true) => f.tag in after <==> f.tag in before || f.tag in tags
    case Oneof(_) => f.tag in after <==> if LastOf(d, f.h, tags).Some? then LastOf(d, f.h, tags) == Some(f.tag) else f.tag in before
    case _ => f.tag in after <==> f.tag in before || f.tag in tags
  }

  lemma PresenceStep(mem: Memory, d: Desc, g: Field, wireType: nat, s: seq<byte>, st: Loop, f: Field)
    requires Has(d, g.tag) && FieldOf(d, g.tag) == g && Has(d, f.tag) && FieldOf(d, f.tag) == f
    requires DecField(mem, d, g, wireType, s, st).Some?
    ensures var next := DecField(mem, d, g, wireType, s, st).value.value.m;
      f.tag in next <==> f.tag == g.tag || (f.tag in st.m && !(g.h.Oneof? && f.h == g.h))
  {
    hide DecValue, DecPacked, DecString, ResetValue, FieldOf;
  }

  lemma {:induction false} PresenceAfter(mem: Memory, d: Desc, s: seq<byte>, st: Loop, f: Field)
    requires DecLoop(mem, d, s, st).Some? && d.fields != [] && Has(d, f.tag) && FieldOf(d, f.tag) == f
    ensures PresentAsRead(f, d, st.m, TagsInOrder(mem, d, s, st), DecLoop(mem, d, s, st).value.value.m)
    decreases |s|
  {
    hide DecTag, DecField, SkipField, FieldOf, Has, EnterFixed, MarkSeen;
    var t := DecTag(s);
    if s != [] && t.Tag? {
      if Has(d, t.tag) {
        var g := FieldOf(d, t.tag);
        var entered := EnterFixed(d, g, st).value;
        EnteringKeeps(d, g, st);
        var marked := MarkSeen(d, g, entered);
        var next := DecField(mem, d, g, t.wireType, t.rest, marked).value;
        PresenceStep(mem, d, g, t.wireType, t.rest, marked, f);
        PresenceAfter(mem, d, next.rest, next.value, f);
        assert TagsInOrder(mem, d, s, st) == [t.tag] + TagsInOrder(mem, d, next.rest, next.value);
      } else {
        PresenceAfter(mem, d, SkipField(t.wireType, t.rest).value, st, f);
      }
    }
  }

  lemma EnteringKeeps(d: Desc, g: Field, st: Loop)
    requires Has(d, g.tag) && EnterFixed(d, g, st).Some?
    ensures MarkSeen(d, g, EnterFixed(d, g, st).value).m.Keys == st.m.Keys + if EnterFixed(d, g, st).value == st then {} else {g.tag}
  {
  }

  /** Presence, for all bytes that are accepted: flags are set for what came, and of each union exactly the
      member that came last is chosen. */
  lemma PresentWhenRead(mem: Memory, d: Desc, s: seq<byte>, i: nat)
    requires Distinct(d) && i < |d.fields| && Decode(mem, d, s).Some?
    ensures var f, tags, m := d.fields[i], TagsInOrder(mem, d, s, Loop(Defaults(mem, d), None, {})), Decode(mem, d, s).value.value;
      match f.h
      case Optional(true) => f.tag in m <==> f.tag in tags
      case Oneof(_) => f.tag in m <==> LastOf(d, f.h, tags) == Some(f.tag)
      case _ => f.tag in m
  {
    hide DecLoop, Defaults, InitialValue, LastOf, TagsInOrder, Finished;
    FieldOfIndex(d, i);
    PresenceAfter(mem, d, s, Loop(Defaults(mem, d), None, {}), d.fields[i]);
    InitiallyThere(mem, d, i);
  }

  lemma InitiallyThere(mem: Memory, d: Desc, i: nat)
    requires Distinct(d) && i < |d.fields|
    ensures d.fields[i].tag in Defaults(mem, d) <==> Initially(d.fields[i])
  {
    FieldOfIndex(d, i);
    HasIsTag(d, d.fields[i].tag);
  }
}
