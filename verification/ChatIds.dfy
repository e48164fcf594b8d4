/** Which id a tool call gets: its own, or a generated one that no other call gets. */
module ChatIds {
  import opened Options
  import opened Diffs
  import opened Mapper
  import opened Stream
  import opened ChatSession

  /** How many of the calls before position i, from a position on, have no id. */
  function Unnamed(calls: seq<Call>, from: nat, i: nat): nat
    requires i <= |calls|
    decreases i
  {
    if i <= from then 0 else Unnamed(calls, from, i - 1) + (if calls[i - 1].id == "" then 1 else 0)
  }

  /** A call that is covered for the first time keeps its id if it has one; the others get
      the generated ids in turn, and no generated id is used twice. */
  lemma {:induction false} CoverExactly(calls: seq<Call>, ids: Ids, gen: nat -> string)
    ensures var r, n := Cover(calls, ids, gen), |ids.cache|;
      && ids.cache <= r.cache && |r.cache| == (if |calls| < n then n else |calls|)
      && (forall i | n <= i < |calls| ::
            r.cache[i] == if calls[i].id != "" then calls[i].id else gen(ids.used + Unnamed(calls, n, i)))
      && r.used == ids.used + Unnamed(calls, n, |calls|)
    decreases |calls| - |ids.cache|
  {
    hide Cover, Unnamed;
    var n := |ids.cache|;
    CoverStep(calls, ids, gen);
    if n < |calls| {
      var own := calls[n].id != "";
      var next := Ids(ids.cache + [if own then calls[n].id else gen(ids.used)], if own then ids.used else ids.used + 1);
      CoverExactly(calls, next, gen);
      forall i | n < i <= |calls|
        ensures Unnamed(calls, n, i) == Unnamed(calls, n + 1, i) + (if own then 0 else 1)
      {
        FirstUnnamed(calls, n, i);
      }
    }
    NoneUnnamed(calls, n);
  }

  lemma CoverStep(calls: seq<Call>, ids: Ids, gen: nat -> string)
    ensures var n := |ids.cache|;
      Cover(calls, ids, gen) ==
        if n >= |calls| then ids
        else if calls[n].id != "" then Cover(calls, Ids(ids.cache + [calls[n].id], ids.used), gen)
        else Cover(calls, Ids(ids.cache + [gen(ids.used)], ids.used + 1), gen)
  {
  }

  lemma NoneUnnamed(calls: seq<Call>, n: nat)
    ensures forall i: nat | i <= n && i <= |calls| :: Unnamed(calls, n, i) == 0
    ensures n >= |calls| ==> Unnamed(calls, n, |calls|) == 0
  {
  }

  lemma {:induction false} FirstUnnamed(calls: seq<Call>, from: nat, i: nat)
    requires from < i <= |calls|
    ensures Unnamed(calls, from, i) == Unnamed(calls, from + 1, i) + (if calls[from].id == "" then 1 else 0)
    decreases i
  {
    if i > from + 1 { FirstUnnamed(calls, from, i - 1); }
  }

  // ---- over a session ----

  ghost predicate Injective(gen: nat -> string) { forall i, j :: gen(i) == gen(j) ==> i == j }

  /** The call at position i in the first parse that has one there. */
  function FirstSeen(parses: seq<Msg>, i: nat): Option<Call> {
    if parses == [] then None
    else if i < |parses[0].calls| then Some(parses[0].calls[i])
    else FirstSeen(parses[1..], i)
  }

  /** Which number the id at each position was generated with, if it was. */
  predicate Numbered(ids: Ids, numbers: seq<Option<nat>>, gen: nat -> string) {
    && |numbers| == |ids.cache|
    && (forall i | 0 <= i < |numbers| && numbers[i].Some? ::
          numbers[i].value < ids.used && ids.cache[i] == gen(numbers[i].value))
    && (forall i, j | 0 <= i < j < |numbers| && numbers[i].Some? :: numbers[i] != numbers[j])
  }

  lemma CoverNumbers(calls: seq<Call>, ids: Ids, numbers: seq<Option<nat>>, gen: nat -> string)
    returns (more: seq<Option<nat>>)
    requires Numbered(ids, numbers, gen)
    ensures Numbered(Cover(calls, ids, gen), more, gen) && numbers <= more
    ensures forall i | |numbers| <= i < |more| :: i < |calls| && (more[i].Some? <==> calls[i].id == "")
    ensures forall i | |numbers| <= i < |more| && more[i].None? :: Cover(calls, ids, gen).cache[i] == calls[i].id
  {
    hide Cover, Unnamed;
    var r, n := Cover(calls, ids, gen), |ids.cache|;
    CoverExactly(calls, ids, gen);
    more := seq(|r.cache|, i requires 0 <= i < |r.cache| =>
      if i < n then numbers[i] else if calls[i].id != "" then None else Some(ids.used + Unnamed(calls, n, i)));
    forall i, j | n <= i < j < |r.cache| && calls[i].id == "" ensures Unnamed(calls, n, i) < Unnamed(calls, n, j) {
      UnnamedGrows(calls, n, i, j);
    }
    forall i | n <= i < |r.cache| && calls[i].id == "" ensures Unnamed(calls, n, i) < Unnamed(calls, n, |calls|) {
      UnnamedGrows(calls, n, i, |calls|);
    }
  }

  lemma {:induction false} UnnamedGrows(calls: seq<Call>, from: nat, i: nat, j: nat)
    requires from <= i < j <= |calls| && calls[i].id == ""
    ensures Unnamed(calls, from, i) < Unnamed(calls, from, j)
    decreases j
  {
    if i < j - 1 { UnnamedGrows(calls, from, i, j - 1); }
  }

  lemma {:induction false} ServeNumbers(s: Session, client: Msg, parses: seq<Msg>, gen: nat -> string,
                                        numbers: seq<Option<nat>>) returns (more: seq<Option<nat>>)
    requires Serve(s, client, parses, gen).Ok? && Numbered(s.ids, numbers, gen)
    ensures var ids := Serve(s, client, parses, gen).value.0.ids;
      && Numbered(ids, more, gen) && numbers <= more
      && forall i | |numbers| <= i < |more| ::
           && FirstSeen(parses, i).Some? && (more[i].Some? <==> FirstSeen(parses, i).value.id == "")
           && (more[i].None? ==> ids.cache[i] == FirstSeen(parses, i).value.id)
    decreases |parses|
  {
    hide Cover, Deltas, Numbered;
    if parses == [] {
      more := numbers;
    } else {
      var u := Update(s, parses[0], gen).value;
      var now := numbers;
      if parses[0] != EMPTY_MSG {
        now := CoverNumbers(parses[0].calls, s.ids, numbers, gen);
      }
      more := ServeNumbers(u.0, ApplyAll(client, u.1), parses[1..], gen, now);
      Lengths(u.0.ids, now, gen);
      LateFirst(parses, |now|);
      ServeKeeps(u.0, ApplyAll(client, u.1), parses[1..], gen);
    }
  }

  lemma Lengths(ids: Ids, numbers: seq<Option<nat>>, gen: nat -> string)
    requires Numbered(ids, numbers, gen)
    ensures |numbers| == |ids.cache|
  {
  }

  lemma LateFirst(parses: seq<Msg>, n: nat)
    requires parses != [] && |parses[0].calls| <= n
    ensures forall i: nat | n <= i :: FirstSeen(parses, i) == FirstSeen(parses[1..], i)
  {
  }

  lemma {:induction false} ServeKeeps(s: Session, client: Msg, parses: seq<Msg>, gen: nat -> string)
    requires Serve(s, client, parses, gen).Ok?
    ensures s.ids.cache <= Serve(s, client, parses, gen).value.0.ids.cache
    decreases |parses|
  {
    hide Deltas;
    if parses != [] {
      var u := Update(s, parses[0], gen).value;
      ServeKeeps(u.0, ApplyAll(client, u.1), parses[1..], gen);
    }
  }

  /** Over a whole session each position has the id that its call had when it was first
      seen, or, if it had none, a generated one; two positions never share a generated id. */
  lemma SessionIds(parses: seq<Msg>, gen: nat -> string)
    requires Injective(gen) && Serve(NEW_SESSION, EMPTY_MSG, parses, gen).Ok?
    ensures var cache := Serve(NEW_SESSION, EMPTY_MSG, parses, gen).value.0.ids.cache;
      && (forall i | 0 <= i < |cache| :: FirstSeen(parses, i).Some?)
      && (forall i | 0 <= i < |cache| && FirstSeen(parses, i).value.id != "" ::
            cache[i] == FirstSeen(parses, i).value.id)
      && (forall i | 0 <= i < |cache| && FirstSeen(parses, i).value.id == "" :: exists k :: cache[i] == gen(k))
      && (forall i, j | 0 <= i < j < |cache| && FirstSeen(parses, i).value.id == FirstSeen(parses, j).value.id == "" ::
            cache[i] != cache[j])
  {
    hide Serve, FirstSeen;
    var more := ServeNumbers(NEW_SESSION, EMPTY_MSG, parses, gen, []);
    var cache := Serve(NEW_SESSION, EMPTY_MSG, parses, gen).value.0.ids.cache;
    forall i | 0 <= i < |cache| && FirstSeen(parses, i).value.id == "" ensures exists k :: cache[i] == gen(k) {
      assert cache[i] == gen(more[i].value);
    }
  }

  /** What the client of a growing answer ends with: the texts and calls of the last parse,
      each call under the id it had when it was first seen, or a generated one of its own. */
  lemma ShownCalls(traces: seq<seq<Event>>, cuts: seq<Cut>, gen: nat -> string)
    requires Injective(gen) && Successive(traces, cuts) && WellFormed(traces[|cuts|])
    ensures var served := Serve(NEW_SESSION, EMPTY_MSG, Messages(traces), gen);
      && served.Ok?
      && var shown, last := served.value.1, Message(traces[|cuts|]);
      && shown.reasoning == last.reasoning && shown.content == last.content && |shown.calls| == |last.calls|
      && forall i | 0 <= i < |last.calls| :: FirstSeen(Messages(traces), i).Some?
           && ShownAs(shown.calls[i], last.calls[i], FirstSeen(Messages(traces), i).value, gen)
           && forall j | 0 <= j < i :: FirstSeen(Messages(traces), j).Some?
                && (FirstSeen(Messages(traces), i).value.id == FirstSeen(Messages(traces), j).value.id == "" ==>
                    shown.calls[i].id != shown.calls[j].id)
  {
    hide Serve, FirstSeen, Injective, Message, Messages, Successive, WellFormed;
    AnswerArrives(traces, cuts, gen);
    SessionIds(Messages(traces), gen);
  }

  /** The name and the arguments as they are now, and the id first seen or a generated one. */
  ghost predicate ShownAs(shown: Call, now: Call, first: Call, gen: nat -> string) {
    && shown.name == now.name && shown.arguments == now.arguments
    && (if first.id != "" then shown.id == first.id else exists k :: shown.id == gen(k))
  }
}
