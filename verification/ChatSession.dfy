/** One streamed chat answer on the server: every parse gets stable tool-call ids and is
    sent as deltas against the one before. */
module ChatSession {
  import opened Diffs
  import opened Mapper
  import opened Stream

  /** The ids handed out so far, and how many of them were generated. */
  datatype Ids = Ids(cache: seq<string>, used: nat)

  /** The id cache once it covers all calls: a call keeps its own id if it has one when
      it is first seen, and gets a generated one otherwise. */
  function Cover(calls: seq<Call>, ids: Ids, gen: nat -> string): (r: Ids)
    ensures ids.cache <= r.cache && |r.cache| == if |calls| < |ids.cache| then |ids.cache| else |calls|
    decreases |calls| - |ids.cache|
  {
    var i := |ids.cache|;
    if i >= |calls| then ids
    else if calls[i].id != "" then Cover(calls, Ids(ids.cache + [calls[i].id], ids.used), gen)
    else Cover(calls, Ids(ids.cache + [gen(ids.used)], ids.used + 1), gen)
  }

  function WithIds(calls: seq<Call>, cache: seq<string>): (r: seq<Call>)
    requires |calls| <= |cache|
    ensures |r| == |calls|
  {
    seq(|calls|, i requires 0 <= i < |calls| => calls[i].(id := cache[i]))
  }

  /** set_tool_call_ids, in place on the calls of a message. */
  method SetToolCallIds(calls: array<Call>, ids: Ids, gen: nat -> string) returns (r: Ids)
    modifies calls
    ensures r == Cover(old(calls[..]), ids, gen)
    ensures calls[..] == WithIds(old(calls[..]), r.cache)
  {
    ghost var was := calls[..];
    r := ids;
    var i := 0;
    while i < calls.Length
      invariant 0 <= i <= calls.Length
      invariant |r.cache| >= i && Cover(was, r, gen) == Cover(was, ids, gen) && ids.cache <= r.cache
      invariant |r.cache| == |ids.cache| || |r.cache| == i
      invariant forall k | 0 <= k < i :: calls[k] == was[k].(id := r.cache[k])
      invariant forall k | i <= k < calls.Length :: calls[k] == was[k]
    {
      if |r.cache| <= i {
        var id := calls[i].id;
        if id == "" {
          id := gen(r.used);
          r := r.(used := r.used + 1);
        }
        r := r.(cache := r.cache + [id]);
      }
      calls[i] := calls[i].(id := r.cache[i]);
      i := i + 1;
    }
  }

  // ---- a session ----

  datatype Session = Session(msg: Msg, ids: Ids)

  const NEW_SESSION := Session(EMPTY_MSG, Ids([], 0))

  /** A new parse: nothing happens while it is empty; otherwise ids are set and the
      deltas against the message so far are computed. */
  function Update(s: Session, parsed: Msg, gen: nat -> string): Result<(Session, seq<Diff>)> {
    if parsed == EMPTY_MSG then Ok((s, [])) else
    var ids := Cover(parsed.calls, s.ids, gen);
    var msg := parsed.(calls := WithIds(parsed.calls, ids.cache));
    var ds := Deltas(s.msg, msg);
    if ds.Err? then Err(ds.error) else Ok((Session(msg, ids), ds.value))
  }

  /** The session after all parses, and the message a client has folded from the deltas. */
  function Serve(s: Session, client: Msg, parses: seq<Msg>, gen: nat -> string): Result<(Session, Msg)>
    decreases |parses|
  {
    if parses == [] then Ok((s, client)) else
    var r := Update(s, parses[0], gen);
    if r.Err? then Err(r.error) else Serve(r.value.0, ApplyAll(client, r.value.1), parses[1..], gen)
  }

  /** The session stands at a parsed message m. */
  predicate At(s: Session, m: Msg) {
    |m.calls| <= |s.ids.cache| && s.msg == m.(calls := WithIds(m.calls, s.ids.cache))
  }

  /** Giving both messages ids from one growing cache keeps extension. */
  lemma ExtendsWithIds(a: Msg, b: Msg, cacheA: seq<string>, cacheB: seq<string>)
    requires Extends(a, b) && |a.calls| <= |cacheA| && |b.calls| <= |cacheB| && cacheA <= cacheB
    ensures Extends(a.(calls := WithIds(a.calls, cacheA)), b.(calls := WithIds(b.calls, cacheB)))
  {
  }

  /** A growing parse is accepted, and a client that followed so far follows on. */
  lemma UpdateFollows(s: Session, m: Msg, parsed: Msg, gen: nat -> string)
    requires At(s, m) && Extends(m, parsed)
    ensures Update(s, parsed, gen).Ok?
    ensures var r := Update(s, parsed, gen).value;
      At(r.0, parsed) && s.ids.cache <= r.0.ids.cache && ApplyAll(s.msg, r.1) == r.0.msg
  {
    hide Deltas, Extends;
    if parsed == EMPTY_MSG {
      EmptyExtends(m);
    } else {
      var ids := Cover(parsed.calls, s.ids, gen);
      var msg := parsed.(calls := WithIds(parsed.calls, ids.cache));
      ExtendsWithIds(m, parsed, s.ids.cache, ids.cache);
      ExtendsAccepted(s.msg, msg);
      ClientFollows(s.msg, msg);
    }
  }

  lemma EmptyExtends(m: Msg)
    requires Extends(m, EMPTY_MSG)
    ensures m == EMPTY_MSG
  {
  }

  /** Over a whole answer nothing throws; the client ends with exactly the last parse,
      and every call carries the id it had when it was first shown. */
  lemma {:induction false} SessionDelivered(s: Session, m: Msg, parses: seq<Msg>, gen: nat -> string)
    requires At(s, m) && Growing([m] + parses)
    ensures Serve(s, s.msg, parses, gen).Ok?
    ensures var r := Serve(s, s.msg, parses, gen).value;
      && r.1 == r.0.msg && At(r.0, if parses == [] then m else parses[|parses| - 1])
      && s.ids.cache <= r.0.ids.cache
    decreases |parses|
  {
    hide Extends, Update, At;
    if parses != [] {
      var all := [m] + parses;
      assert all[0] == m && all[1] == parses[0];
      UpdateFollows(s, m, parses[0], gen);
      assert [parses[0]] + parses[1..] == all[1..];
      GrowingTail(all);
      SessionDelivered(Update(s, parses[0], gen).value.0, parses[0], parses[1..], gen);
    }
  }

  lemma GrowingTail(ms: seq<Msg>)
    requires |ms| > 0 && Growing(ms)
    ensures Growing(ms[1..])
  {
    hide Extends;
    forall i | 0 <= i < |ms| - 2 ensures Extends(ms[1..][i], ms[1..][i + 1]) {
      assert ms[1..][i] == ms[i + 1] && ms[1..][i + 1] == ms[i + 1 + 1];
    }
  }

  /** An id that was shown stays: the ids of a call in two states of a session agree. */
  lemma IdsStay(s: Session, m: Msg, parses: seq<Msg>, gen: nat -> string, i: nat)
    requires At(s, m) && Growing([m] + parses) && i < |m.calls|
    ensures var r := Serve(s, s.msg, parses, gen);
      r.Ok? && i < |r.value.0.msg.calls| && r.value.0.msg.calls[i].id == s.msg.calls[i].id
  {
    SessionDelivered(s, m, parses, gen);
    GrowingCalls([m] + parses);
  }

  lemma {:induction false} GrowingCalls(ms: seq<Msg>)
    requires |ms| > 0 && Growing(ms)
    ensures |ms[0].calls| <= |ms[|ms| - 1].calls|
    decreases |ms|
  {
    if |ms| > 1 {
      assert Extends(ms[0], ms[0 + 1]);
      GrowingTail(ms);
      GrowingCalls(ms[1..]);
    }
  }

  /** From text to client: the parses of a growing output, each a truncation of the next
      by a cut that is not visibly bad, are served without an exception, and the client
      ends with the message of the last parse, its calls under the ids handed out. */
  lemma AnswerArrives(traces: seq<seq<Event>>, cuts: seq<Cut>, gen: nat -> string)
    requires Successive(traces, cuts) && WellFormed(traces[|cuts|])
    ensures var r := Serve(NEW_SESSION, EMPTY_MSG, Messages(traces), gen);
      && r.Ok? && r.value.1 == r.value.0.msg && At(r.value.0, Message(traces[|cuts|]))
  {
    hide Successive, WellFormed, Extends, Message, Serve;
    var ms := Messages(traces);
    assert |ms| == |cuts| + 1 by { SameCount(traces, cuts); }
    MessagesGrow(traces, cuts);
    var all := [EMPTY_MSG] + ms;
    forall i | 0 <= i < |all| - 1 ensures Extends(all[i], all[i + 1]) {
      if i == 0 {
        EmptyIsExtended(ms[0]);
      } else {
        assert all[i] == ms[i - 1] && all[i + 1] == ms[i - 1 + 1];
      }
    }
    SessionDelivered(NEW_SESSION, EMPTY_MSG, ms, gen);
  }

  lemma SameCount(traces: seq<seq<Event>>, cuts: seq<Cut>)
    requires Successive(traces, cuts)
    ensures |traces| == |cuts| + 1
  {
  }

  lemma EmptyIsExtended(m: Msg)
    ensures Extends(EMPTY_MSG, m)
  {
  }
}
