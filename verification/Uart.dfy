// The stream logic of the KVM back end's UART (native/kvm/backend.cc:1458-1474, 1542-1640): the console log
// with its limit, the markers looked for in the output, and the filter that answers terminal queries.
module Uart {
  import opened Bytes

  // reboot: System halted
  const HALTED: seq<byte> := [0x72, 0x65, 0x62, 0x6F, 0x6F, 0x74, 0x3A, 0x20, 0x53, 0x79, 0x73, 0x74, 0x65, 0x6D,
                              0x20, 0x68, 0x61, 0x6C, 0x74, 0x65, 0x64]
  // Restarting system
  const RESTARTING: seq<byte> := [0x52, 0x65, 0x73, 0x74, 0x61, 0x72, 0x74, 0x69, 0x6E, 0x67, 0x20, 0x73, 0x79,
                                  0x73, 0x74, 0x65, 0x6D]

  // ---- The matcher ----

  // The counter after a byte: one past the last position up to current that holds the byte, or 0.
  function Advance(p: seq<byte>, current: nat, b: byte): (next: nat)
    requires current < |p|
    ensures next <= current + 1
  {
    if p[current] == b then current + 1 else if current == 0 then 0 else Advance(p, current - 1, b)
  }

  method AdvanceMatch(pattern: seq<byte>, start: nat, b: byte) returns (current: nat)
    requires start < |pattern|
    ensures current == Advance(pattern, start, b)
  {
    current := start;
    while current > 0 && b != pattern[current]
      invariant current <= start && Advance(pattern, current, b) == Advance(pattern, start, b)
    {
      current := current - 1;
    }
    if b == pattern[current] { current := current + 1; }
    if current == |pattern| { return |pattern|; }
  }

  // The counter over a stream; it stays at |p| once it gets there.
  function Count(p: seq<byte>, s: seq<byte>): (c: nat)
    requires p != []
    ensures c <= |p|
  {
    if s == [] then 0 else
      var c := Count(p, s[..|s| - 1]);
      if c == |p| then c else Advance(p, c, s[|s| - 1])
  }

  predicate EndsWith(s: seq<byte>, t: seq<byte>) { |t| <= |s| && s[|s| - |t|..] == t }

  ghost predicate Occurs(p: seq<byte>, s: seq<byte>) { exists e :: 0 <= e <= |s| && EndsWith(s[..e], p) }

  predicate Latched(p: seq<byte>, s: seq<byte>)
    requires p != []
  {
    Count(p, s) == |p|
  }

  lemma {:induction false} AdvanceAtLeast(p: seq<byte>, current: nat, b: byte, k: nat)
    requires k <= current < |p| && p[k] == b
    ensures Advance(p, current, b) >= k + 1
  {
    if p[current] != b { AdvanceAtLeast(p, current - 1, b, k); }
  }

  lemma EndsWithLast(s: seq<byte>, p: seq<byte>, k: nat)
    requires s != [] && 0 < k <= |p| && EndsWith(s, p[..k])
    ensures EndsWith(s[..|s| - 1], p[..k - 1]) && p[k - 1] == s[|s| - 1]
  {
    var t := s[|s| - k..];
    assert s[..|s| - 1][|s| - k..] == t[..k - 1] == p[..k - 1];
    assert s[|s| - 1] == t[k - 1];
  }

  // Until the latch, the counter is at least the length of every pattern prefix that the stream ends with.
  lemma {:induction false} CountCovers(p: seq<byte>, s: seq<byte>, k: nat)
    requires p != [] && k <= |p| && EndsWith(s, p[..k])
    ensures Count(p, s) >= k
  {
    if k > 0 {
      EndsWithLast(s, p, k);
      CountCovers(p, s[..|s| - 1], k - 1);
      var c := Count(p, s[..|s| - 1]);
      if c < |p| { AdvanceAtLeast(p, c, s[|s| - 1], k - 1); }
    }
  }

  lemma {:induction false} LatchStays(p: seq<byte>, s: seq<byte>, e: nat)
    requires p != [] && e <= |s| && Latched(p, s[..e])
    ensures Latched(p, s)
  {
    if e < |s| {
      assert s[..|s| - 1][..e] == s[..e];
      LatchStays(p, s[..|s| - 1], e);
    } else {
      assert s[..e] == s;
    }
  }

  // An occurrence is never missed, wherever it ends.
  lemma NeverMisses(p: seq<byte>, s: seq<byte>)
    requires p != [] && Occurs(p, s)
    ensures Latched(p, s)
  {
    var e :| 0 <= e <= |s| && EndsWith(s[..e], p);
    assert p[..|p|] == p;
    CountCovers(p, s[..e], |p|);
    LatchStays(p, s, e);
  }

  // Falling back from c past every other byte to the last b before it keeps a prefix that was really seen.
  predicate HealsAt(p: seq<byte>, c: nat, b: byte)
    requires c < |p|
  {
    var next := Advance(p, c, b);
    next == 0 || EndsWith(p[..c] + [b], p[..next])
  }

  ghost predicate Heals(p: seq<byte>) { forall c, b: byte :: 0 <= c < |p| ==> HealsAt(p, c, b) }

  lemma EndsWithTrans(s: seq<byte>, t: seq<byte>, u: seq<byte>)
    requires EndsWith(s, t) && EndsWith(t, u)
    ensures EndsWith(s, u)
  {
    assert s[|s| - |u|..] == s[|s| - |t|..][|t| - |u|..];
  }

  lemma EndsWithMore(s: seq<byte>, t: seq<byte>, b: byte)
    requires EndsWith(s, t)
    ensures EndsWith(s + [b], t + [b])
  {
    assert (s + [b])[|s| - |t|..] == s[|s| - |t|..] + [b];
  }

  lemma {:induction false} HealedCount(p: seq<byte>, s: seq<byte>)
    requires p != [] && Heals(p)
    ensures Latched(p, s) ==> Occurs(p, s)
    ensures !Latched(p, s) ==> EndsWith(s, p[..Count(p, s)])
  {
    if s != [] {
      var n := |s| - 1;
      var c := Count(p, s[..n]);
      HealedCount(p, s[..n]);
      if c == |p| {
        var e :| 0 <= e <= n && EndsWith(s[..n][..e], p);
        assert s[..n][..e] == s[..e];
      } else {
        assert HealsAt(p, c, s[n]);
        assert s == s[..n] + [s[n]];
        EndsWithMore(s[..n], p[..c], s[n]);
        var next := Advance(p, c, s[n]);
        if next > 0 { EndsWithTrans(s, p[..c] + [s[n]], p[..next]); }
        assert s[..|s|] == s && p[..|p|] == p;
      }
    }
  }

  // The counter follows the pattern itself from any state.
  lemma {:induction false} CountFollows(p: seq<byte>, s: seq<byte>, k: nat)
    requires p != [] && Count(p, s) <= k <= |p|
    ensures Count(p, s + p[Count(p, s)..k]) == k
  {
    var c := Count(p, s);
    if k > c {
      CountFollows(p, s, k - 1);
      var t := s + p[c..k];
      assert t[..|t| - 1] == s + p[c..k - 1] && t[|t| - 1] == p[k - 1];
    } else {
      assert s + p[c..k] == s;
    }
  }

  // Where the pattern does not heal, this stream sets the latch without containing the pattern.
  function Alarm(p: seq<byte>, c: nat, b: byte): seq<byte>
    requires c < |p|
  {
    p[..c] + [b] + p[Advance(p, c, b)..]
  }

  lemma AlarmStart(p: seq<byte>, c: nat, b: byte)
    requires c < |p|
    ensures Count(p, p[..c] + [b]) == Advance(p, c, b)
  {
    CountFollows(p, [], c);
    assert [] + p[0..c] == p[..c];
    assert (p[..c] + [b])[..c] == p[..c];
  }

  // The counter over the stream's prefixes: the matched part grows byte by byte.
  lemma AlarmCount(p: seq<byte>, c: nat, b: byte, e: nat)
    requires c < |p| && e <= |Alarm(p, c, b)|
    ensures Count(p, Alarm(p, c, b)[..e]) == if e <= c then e else Advance(p, c, b) + (e - c - 1)
  {
    hide Count, Advance;
    var next := Advance(p, c, b);
    if e <= c {
      CountNothing(p);
      CountFollows(p, [], e);
      assert [] + p[0..e] == Alarm(p, c, b)[..e];
    } else {
      AlarmStart(p, c, b);
      CountFollows(p, p[..c] + [b], next + (e - c - 1));
      assert p[..c] + [b] + p[next..next + (e - c - 1)] == Alarm(p, c, b)[..e];
    }
  }

  lemma CountNothing(p: seq<byte>)
    requires p != []
    ensures Count(p, []) == 0
  {
  }

  lemma AlarmHeals(p: seq<byte>, c: nat, b: byte)
    requires c < |p| && EndsWith(Alarm(p, c, b), p)
    ensures HealsAt(p, c, b)
  {
    var next := Advance(p, c, b);
    var t, s := p[..c] + [b], Alarm(p, c, b);
    var u := t[|t| - next..];
    assert u == p[..next] by {
      forall i | 0 <= i < next ensures u[i] == p[i] {
        assert s[|s| - |p|..][i] == s[|s| - |p| + i];
      }
    }
  }

  lemma FalseAlarm(p: seq<byte>, c: nat, b: byte)
    requires c < |p| && !HealsAt(p, c, b)
    ensures Latched(p, Alarm(p, c, b)) && !Occurs(p, Alarm(p, c, b))
  {
    hide Count, Advance, EndsWith, HealsAt;
    var s := Alarm(p, c, b);
    AlarmCount(p, c, b, |s|);
    assert s[..|s|] == s;
    forall e | 0 <= e <= |s| ensures !EndsWith(s[..e], p) {
      AlarmCount(p, c, b, e);
      assert p[..|p|] == p;
      if EndsWith(s[..e], p) {
        CountCovers(p, s[..e], |p|);
        AlarmHeals(p, c, b);
      }
    }
  }

  // The latch tells exactly whether the stream contains the pattern, for every stream, if and only if the
  // pattern heals: a check on the pattern alone.
  lemma LatchExactIff(p: seq<byte>)
    requires p != []
    ensures (forall s :: Latched(p, s) <==> Occurs(p, s)) <==> Heals(p)
  {
    if Heals(p) {
      forall s ensures Latched(p, s) <==> Occurs(p, s) {
        HealedCount(p, s);
        if Occurs(p, s) { NeverMisses(p, s); }
      }
    } else {
      var c, b: byte :| 0 <= c < |p| && !HealsAt(p, c, b);
      FalseAlarm(p, c, b);
      assert !(Latched(p, Alarm(p, c, b)) <==> Occurs(p, Alarm(p, c, b)));
    }
  }

  // Neither marker heals: a doubled o, or a doubled s, is taken for one.
  lemma MarkersDoNotHeal()
    ensures !Heals(HALTED) && !Heals(RESTARTING)
  {
    assert Advance(HALTED, 5, 0x6F) == 5;
    assert (HALTED[..5] + [0x6F])[1] == 0x65;
    assert (HALTED[..5] + [0x6F])[6 - 5..] != HALTED[..5];
    assert !HealsAt(HALTED, 5, 0x6F);
    assert Advance(RESTARTING, 12, 0x73) == 12;
    assert (RESTARTING[..12] + [0x73])[13 - 12..][0] == 0x65;
    assert !HealsAt(RESTARTING, 12, 0x73);
  }

  // ---- The device ----

  // ESC [ 6 n
  const QUERY: seq<byte> := [0x1B, 0x5B, 0x36, 0x6E]
  // ESC [ 1 ; 1 R
  const RESPONSE: seq<byte> := [0x1B, 0x5B, 0x31, 0x3B, 0x31, 0x52]
  const RX_LIMIT: nat := 4096

  // How the output came about: guest bytes passed on, a query answered, bytes the host put in.
  datatype Segment = Plain(bytes: seq<byte>) | Answered | Host(bytes: seq<byte>)

  function Written(segments: seq<Segment>): seq<byte> {
    if segments == [] then [] else
      Written(segments[..|segments| - 1]) +
      match segments[|segments| - 1] case Plain(b) => b case Answered => QUERY case Host(_) => []
  }

  function Shown(segments: seq<Segment>): seq<byte> {
    if segments == [] then [] else
      Shown(segments[..|segments| - 1]) +
      match segments[|segments| - 1] case Plain(b) => b case Answered => [] case Host(b) => b
  }

  lemma SegmentNext(segments: seq<Segment>, x: Segment)
    ensures Written(segments + [x]) == Written(segments) + match x case Plain(b) => b case Answered => QUERY
            case Host(_) => []
    ensures Shown(segments + [x]) == Shown(segments) + match x case Plain(b) => b case Answered => [] case Host(b) => b
  {
    assert (segments + [x])[..|segments|] == segments;
  }

  // track_console_markers' part for one marker and one byte.
  method TrackByte(p: seq<byte>, current: nat, seen: bool, b: byte, ghost s: seq<byte>) returns (next: nat, found: bool)
    requires p != [] && current == Count(p, s) && seen == Latched(p, s)
    ensures next == Count(p, s + [b]) && found == Latched(p, s + [b])
  {
    assert (s + [b])[..|s|] == s;
    next, found := current, seen;
    if !seen {
      next := AdvanceMatch(p, current, b);
      found := next == |p|;
    }
  }

  class Uart {
    const limit: nat
    var console: seq<byte>
    var rx: seq<byte>
    var terminalQuery: seq<byte>
    var haltedSeen: bool
    var restartingSeen: bool
    var haltedMatch: nat
    var restartingMatch: nat
    // The bytes the guest wrote, and what became of them.
    ghost var input: seq<byte>
    ghost var segments: seq<Segment>

    // Every guest byte is shown, waits in an unfinished query, or belongs to an answered one, in order; the
    // console log is the front of what was shown; and the markers follow all of it, past the limit too.
    ghost predicate Valid()
      reads this
    {
      && input == Written(segments) + terminalQuery
      && console == Shown(segments)[..Min(limit, |Shown(segments)|)]
      && |rx| <= RX_LIMIT
      && terminalQuery < QUERY
      && haltedMatch == Count(HALTED, Shown(segments)) && haltedSeen == Latched(HALTED, Shown(segments))
      && restartingMatch == Count(RESTARTING, Shown(segments)) && restartingSeen == Latched(RESTARTING, Shown(segments))
    }

    constructor (limit: nat)
      ensures Valid() && this.limit == limit && input == [] && segments == []
    {
      this.limit := limit;
      console, rx, terminalQuery := [], [], [];
      haltedSeen, restartingSeen, haltedMatch, restartingMatch := false, false, 0, 0;
      input, segments := [], [];
    }

    method TrackConsoleMarkers(bytes: seq<byte>, ghost shown: seq<byte>)
      requires haltedMatch == Count(HALTED, shown) && haltedSeen == Latched(HALTED, shown)
      requires restartingMatch == Count(RESTARTING, shown) && restartingSeen == Latched(RESTARTING, shown)
      modifies `haltedMatch, `haltedSeen, `restartingMatch, `restartingSeen
      ensures haltedMatch == Count(HALTED, shown + bytes) && haltedSeen == Latched(HALTED, shown + bytes)
      ensures restartingMatch == Count(RESTARTING, shown + bytes) && restartingSeen == Latched(RESTARTING, shown + bytes)
    {
      hide Count, Latched;
      assert shown + bytes[..0] == shown;
      for i := 0 to |bytes|
        invariant haltedMatch == Count(HALTED, shown + bytes[..i]) && haltedSeen == Latched(HALTED, shown + bytes[..i])
        invariant restartingMatch == Count(RESTARTING, shown + bytes[..i])
        invariant restartingSeen == Latched(RESTARTING, shown + bytes[..i])
      {
        ghost var so := shown + bytes[..i];
        assert shown + bytes[..i + 1] == so + [bytes[i]];
        haltedMatch, haltedSeen := TrackByte(HALTED, haltedMatch, haltedSeen, bytes[i], so);
        restartingMatch, restartingSeen := TrackByte(RESTARTING, restartingMatch, restartingSeen, bytes[i], so);
      }
      assert bytes[..|bytes|] == bytes;
    }

    // emit_tx_locked; x says where the bytes come from.
    method EmitTx(bytes: seq<byte>, ghost x: Segment)
      requires x == Plain(bytes) || x == Host(bytes)
      requires console == Shown(segments)[..Min(limit, |Shown(segments)|)]
      requires haltedMatch == Count(HALTED, Shown(segments)) && haltedSeen == Latched(HALTED, Shown(segments))
      requires restartingMatch == Count(RESTARTING, Shown(segments))
              && restartingSeen == Latched(RESTARTING, Shown(segments))
      modifies `console, `haltedMatch, `haltedSeen, `restartingMatch, `restartingSeen, `segments
      ensures segments == old(segments) + [x]
      ensures console == Shown(segments)[..Min(limit, |Shown(segments)|)]
      ensures haltedMatch == Count(HALTED, Shown(segments)) && haltedSeen == Latched(HALTED, Shown(segments))
      ensures restartingMatch == Count(RESTARTING, Shown(segments))
              && restartingSeen == Latched(RESTARTING, Shown(segments))
    {
      hide Count, Latched, Shown;
      SegmentNext(segments, x);
      ghost var shown := Shown(segments);
      segments := segments + [x];
      if bytes == [] {
        assert shown + bytes == shown;
        return;
      }
      TrackConsoleMarkers(bytes, shown);
      var available := if limit > |console| then limit - |console| else 0;
      if available > 0 { console := console + bytes[..Min(available, |bytes|)]; }
    }

    // enqueue_rx_locked at the front: the end of the data stays when the queue fills up.
    method EnqueueFront(data: seq<byte>)
      requires |rx| <= RX_LIMIT
      modifies `rx
      ensures var k := Min(|data|, RX_LIMIT - old(|rx|)); rx == data[|data| - k..] + old(rx)
    {
      var i := |data|;
      while i > 0 && |rx| < RX_LIMIT
        invariant 0 <= i <= |data| && |data| - i <= RX_LIMIT - old(|rx|)
        invariant rx == data[i..] + old(rx)
      {
        rx := [data[i - 1]] + rx;
        i := i - 1;
      }
    }

    // enqueue_rx: the front of the data stays when the queue fills up.
    method EnqueueBack(data: seq<byte>)
      requires |rx| <= RX_LIMIT
      modifies `rx
      ensures var k := Min(|data|, RX_LIMIT - old(|rx|)); rx == old(rx) + data[..k]
    {
      var i := 0;
      while i < |data| && |rx| < RX_LIMIT
        invariant 0 <= i <= |data| && i <= RX_LIMIT - old(|rx|)
        invariant rx == old(rx) + data[..i]
      {
        rx := rx + [data[i]];
        i := i + 1;
      }
    }

    // The query is complete: the answer goes to the front of the guest's input.
    method Answer()
      requires Valid()
      modifies `rx, `terminalQuery, `segments, `input
      ensures Valid() && input == old(Written(segments)) + QUERY && segments == old(segments) + [Answered]
      ensures terminalQuery == []
      ensures rx == RESPONSE[|RESPONSE| - Min(|RESPONSE|, RX_LIMIT - old(|rx|))..] + old(rx)
    {
      hide Count, Latched, Shown, Written;
      EnqueueFront(RESPONSE);
      SegmentNext(segments, Answered);
      assert Shown(segments) + [] == Shown(segments);
      input := Written(segments) + QUERY;
      segments := segments + [Answered];
      terminalQuery := [];
      assert Written(segments) + terminalQuery == Written(segments);
    }

    method PassOn(bytes: seq<byte>)
      requires Valid()
      modifies this
      ensures Valid() && input == old(Written(segments)) + bytes && segments == old(segments) + [Plain(bytes)]
      ensures terminalQuery == [] && rx == old(rx)
    {
      hide Count, Latched, Shown, Written;
      SegmentNext(segments, Plain(bytes));
      EmitTx(bytes, Plain(bytes));
      input := old(Written(segments)) + bytes;
      terminalQuery := [];
      assert Written(segments) + terminalQuery == Written(segments);
    }

    method HandleTxByte(value: byte)
      requires Valid()
      modifies this
      ensures Valid() && input == old(input) + [value]
      ensures var whole := old(terminalQuery) + [value];
        if whole == [0x1B, 0x5B, 0x36, 0x6E] then
          && segments == old(segments) + [Answered] && terminalQuery == []
          && (var answer: seq<byte> := [0x1B, 0x5B, 0x31, 0x3B, 0x31, 0x52];
              rx == answer[6 - Min(6, 4096 - old(|rx|))..] + old(rx))
        else if whole <= [0x1B, 0x5B, 0x36, 0x6E] then segments == old(segments) && terminalQuery == whole && rx == old(rx)
        else segments == old(segments) + [Plain(whole)] && terminalQuery == [] && rx == old(rx)
    {
      hide Count, Latched, Shown, Written;
      ghost var whole := terminalQuery + [value];
      assert Written(segments) + whole == input + [value];
      if terminalQuery != [] || value == 0x1B {
        if terminalQuery + [value] <= QUERY {
          if terminalQuery + [value] == QUERY {
            Answer();
          } else {
            assert |whole| == |QUERY| ==> whole == QUERY;
            terminalQuery := terminalQuery + [value];
            input := input + [value];
          }
          return;
        }
        PassOn(terminalQuery + [value]);
        return;
      }
      assert whole == [value] && whole[0] != QUERY[0];
      PassOn([value]);
    }

    // emit_bytes: console output that does not come from the guest's UART.
    method EmitBytes(data: seq<byte>)
      requires Valid()
      modifies this
      ensures Valid() && input == old(input) && segments == old(segments) + [Host(data)]
    {
      hide Count, Latched, Shown, Written;
      SegmentNext(segments, Host(data));
      EmitTx(data, Host(data));
    }

    // contains: if a marker ever appeared in the output, even past the limit, it is known; any other needle
    // is looked for in the console log, which misses what came after the limit.
    method Contains(needle: seq<byte>) returns (found: bool)
      requires Valid()
      ensures needle == HALTED || needle == RESTARTING ==> found == Latched(needle, Shown(segments))
      ensures needle == HALTED || needle == RESTARTING ==> (Occurs(needle, Shown(segments)) ==> found)
      ensures needle != HALTED && needle != RESTARTING ==> (found <==> Occurs(needle, console))
      ensures needle != HALTED && needle != RESTARTING ==> (found ==> Occurs(needle, Shown(segments)))
      ensures needle != HALTED && needle != RESTARTING && |Shown(segments)| <= limit ==>
        (found <==> Occurs(needle, Shown(segments)))
    {
      hide Count, Latched, Shown, Written, Occurs;
      if needle == HALTED {
        found := haltedSeen;
      } else if needle == RESTARTING {
        found := restartingSeen;
      } else {
        found := Find(console, needle);
        OccursInPrefix(needle, Shown(segments), |console|);
        assert |Shown(segments)| <= limit ==> console == Shown(segments);
        return;
      }
      if Occurs(needle, Shown(segments)) { NeverMisses(needle, Shown(segments)); }
    }
  }

  // std::string::find
  method Find(s: seq<byte>, needle: seq<byte>) returns (found: bool)
    ensures found <==> Occurs(needle, s)
  {
    for e := 0 to |s| + 1
      invariant forall k :: 0 <= k < e ==> !EndsWith(s[..k], needle)
    {
      if EndsWith(s[..e], needle) { return true; }
    }
    return false;
  }

  lemma OccursInPrefix(p: seq<byte>, s: seq<byte>, n: nat)
    requires n <= |s|
    ensures Occurs(p, s[..n]) ==> Occurs(p, s)
  {
    if Occurs(p, s[..n]) {
      var e :| 0 <= e <= n && EndsWith(s[..n][..e], p);
      assert s[..n][..e] == s[..e];
    }
  }
}
