// src/autobench/auth/jwks.py: when the entries of the key cache can go back in time.
module JwksOrder {
  import opened JwksCache
  import opened Wrappers

  // ---------------------------------------------------------------- one step, and whole runs

  // No entry gets an older timestamp than it had.
  ghost predicate StepKeepsTime(w: World, ttl: real, s: State, step: Step)
    requires Enabled(s, step)
  {
    var next := After(w, ttl, s, step).cache;
    forall url :: url in s.cache ==> url in next && s.cache[url].ts <= next[url].ts
  }

  ghost predicate NeverBack(w: World, ttl: real, s: State, steps: seq<Step>)
    requires Possible(w, ttl, s, steps)
    decreases |steps|
  {
    steps == [] || (StepKeepsTime(w, ttl, s, steps[0]) && NeverBack(w, ttl, After(w, ttl, s, steps[0]), steps[1..]))
  }

  // An answer: the URL, and the clock reading from before it was asked for.
  datatype Answer = Answer(url: string, asked: real)

  function AnswerOf(s: State, step: Step): seq<Answer>
    requires Enabled(s, step)
  {
    if step.Response? then [Answer(s.calls[step.id].url, s.calls[step.id].asked)] else []
  }

  // The answers of a run, in the order they arrive.
  function Answers(w: World, ttl: real, s: State, steps: seq<Step>): seq<Answer>
    requires Possible(w, ttl, s, steps)
    decreases |steps|
  {
    if steps == [] then [] else AnswerOf(s, steps[0]) + Answers(w, ttl, After(w, ttl, s, steps[0]), steps[1..])
  }

  // Of each URL, they arrive in the order they were asked for.
  predicate InAskedOrder(answers: seq<Answer>) {
    forall i, j :: 0 <= i < j < |answers| && answers[i].url == answers[j].url ==> answers[i].asked <= answers[j].asked
  }

  // None was asked for before the entry it replaces.
  ghost predicate NoneOlder(cache: Cache, answers: seq<Answer>) {
    forall a :: a in answers && a.url in cache ==> cache[a.url].ts <= a.asked
  }

  // A step sets an entry back exactly when it is an answer asked for before the entry was.
  lemma StepBackIff(w: World, ttl: real, s: State, step: Step)
    requires Enabled(s, step)
    ensures StepKeepsTime(w, ttl, s, step) <==> NoneOlder(s.cache, AnswerOf(s, step))
  {
    if step.Response? {
      var a := AnswerOf(s, step)[0];
      assert After(w, ttl, s, step).cache[a.url].ts == a.asked;
      assert a in AnswerOf(s, step);
    }
  }

  lemma OrderBehind(first: Answer, rest: seq<Answer>)
    ensures InAskedOrder([first] + rest)
       <==> InAskedOrder(rest) && forall a :: a in rest && a.url == first.url ==> first.asked <= a.asked
  {
    var all := [first] + rest;
    assert all[1..] == rest;
    if InAskedOrder(all) {
      forall i, j | 0 <= i < j < |rest| && rest[i].url == rest[j].url ensures rest[i].asked <= rest[j].asked {
        assert all[i + 1] == rest[i] && all[j + 1] == rest[j];
      }
      forall a | a in rest && a.url == first.url ensures first.asked <= a.asked {
        var j :| 0 <= j < |rest| && rest[j] == a;
        assert all[0] == first && all[j + 1] == a;
      }
    }
  }

  // The answers after an answer, against the cache that holds it.
  lemma AnswerStored(before: Cache, after: Cache, first: Answer, rest: seq<Answer>)
    requires first.url in after && after[first.url].ts == first.asked
    requires forall url :: url != first.url ==> (url in after <==> url in before)
    requires forall url :: url != first.url && url in before ==> after[url] == before[url]
    ensures NoneOlder(before, [first]) && InAskedOrder(rest) && NoneOlder(after, rest)
       <==> InAskedOrder([first] + rest) && NoneOlder(before, [first] + rest)
  {
    OrderBehind(first, rest);
    assert first in [first];
    assert forall a :: a in [first] + rest <==> a == first || a in rest;
  }

  // A step and the answers behind it, against the cache from before and the one from after the step.
  lemma StepBefore(w: World, ttl: real, s: State, step: Step, rest: seq<Answer>)
    requires Enabled(s, step)
    ensures var next, all := After(w, ttl, s, step), AnswerOf(s, step) + rest;
      (StepKeepsTime(w, ttl, s, step) && InAskedOrder(rest) && NoneOlder(next.cache, rest))
      <==> InAskedOrder(all) && NoneOlder(s.cache, all)
  {
    var next := After(w, ttl, s, step);
    StepBackIff(w, ttl, s, step);
    if step.Response? {
      AnswerStored(s.cache, next.cache, AnswerOf(s, step)[0], rest);
    } else {
      assert [] + rest == rest && next.cache == s.cache;
    }
  }

  lemma {:induction false} BackIff(w: World, ttl: real, s: State, steps: seq<Step>)
    requires Possible(w, ttl, s, steps)
    ensures NeverBack(w, ttl, s, steps)
       <==> InAskedOrder(Answers(w, ttl, s, steps)) && NoneOlder(s.cache, Answers(w, ttl, s, steps))
    decreases |steps|
  {
    if steps == [] {
    } else {
      var next := After(w, ttl, s, steps[0]);
      BackIff(w, ttl, next, steps[1..]);
      StepBefore(w, ttl, s, steps[0], Answers(w, ttl, next, steps[1..]));
    }
  }

  // Over any run from the start, no entry goes back in time if and only if the answers of each URL
  // arrive in the order they were asked for.
  lemma NeverBackIffAskedOrder(w: World, ttl: real, steps: seq<Step>)
    requires Possible(w, ttl, INITIAL, steps)
    ensures NeverBack(w, ttl, INITIAL, steps) <==> InAskedOrder(Answers(w, ttl, INITIAL, steps))
  {
    BackIff(w, ttl, INITIAL, steps);
  }

  // ---------------------------------------------------------------- what the cache saves

  // An entry stands until its URL is answered again.
  lemma {:induction false} EntryStands(w: World, ttl: real, s: State, steps: seq<Step>, url: string)
    requires Possible(w, ttl, s, steps) && url in s.cache
    requires forall a :: a in Answers(w, ttl, s, steps) ==> a.url != url
    ensures url in Run(w, ttl, s, steps).cache && Run(w, ttl, s, steps).cache[url] == s.cache[url]
    decreases |steps|
  {
    if steps == [] {
    } else {
      if steps[0].Response? {
        assert AnswerOf(s, steps[0])[0] in Answers(w, ttl, s, steps);
      }
      EntryStands(w, ttl, After(w, ttl, s, steps[0]), steps[1..], url);
    }
  }

  // Until the URL is answered again, and less than the TTL after that answer was asked for, a call for a
  // key its document carries ends at once with that key; any other id is asked for once more.
  lemma FreshKeyIsServed(w: World, ttl: real, s: State, answer: Step, between: seq<Step>, start: Step)
    requires Enabled(s, answer) && answer.Response? && Possible(w, ttl, After(w, ttl, s, answer), between)
    requires var url, next := s.calls[answer.id].url, After(w, ttl, s, answer);
      && (forall a :: a in Answers(w, ttl, next, between) ==> a.url != url)
      && Enabled(Run(w, ttl, next, between), start) && start.Start? && start.url == url
      && start.at - s.calls[answer.id].asked < ttl
    ensures var doc := w(start.url, answer.served);
      var call := After(w, ttl, Run(w, ttl, After(w, ttl, s, answer), between), start).calls[start.id];
      && (forall key :: Carries(doc, start.kid, key) ==>
            call == Call.Returned(start.url, start.kid, start.at, start.at, Some(key)))
      && (Lacks(doc, start.kid) ==> call == AwaitsRefresh(start.url, start.kid, start.at, start.again))
  {
    EntryStands(w, ttl, After(w, ttl, s, answer), between, start.url);
    KeysOfDocument(w(start.url, answer.served), start.kid);
  }

  // ---------------------------------------------------------------- one fetch at a time

  // The step leaves its call waiting for a fetch it has just begun.
  predicate BeginsFetch(w: World, ttl: real, s: State, step: Step)
    requires Enabled(s, step)
  {
    Waits(After(w, ttl, s, step), step.id)
  }

  // If so, no other call is waiting for that URL.
  ghost predicate BeginsAlone(w: World, ttl: real, s: State, step: Step)
    requires Enabled(s, step)
  {
    BeginsFetch(w, ttl, s, step) ==>
      forall id :: id != step.id && Waits(s, id) ==> s.calls[id].url != After(w, ttl, s, step).calls[step.id].url
  }

  ghost predicate OneFetchAtATime(w: World, ttl: real, s: State, steps: seq<Step>)
    requires Possible(w, ttl, s, steps)
    decreases |steps|
  {
    steps == [] || (BeginsAlone(w, ttl, s, steps[0]) && OneFetchAtATime(w, ttl, After(w, ttl, s, steps[0]), steps[1..]))
  }

  // Every URL is fetched by at most one call, and that call asked after its entry was asked for.
  ghost predicate Orderly(s: State) {
    && (forall url :: url in s.cache ==> s.cache[url].ts <= s.now)
    && (forall id :: Waits(s, id) ==>
          && s.calls[id].asked <= s.now
          && (s.calls[id].url in s.cache ==> s.cache[s.calls[id].url].ts <= s.calls[id].asked))
    && (forall id, other :: Waits(s, id) && Waits(s, other) && id != other ==> s.calls[id].url != s.calls[other].url)
  }

  // What a step does to the calls and the entries it is not about: nothing.
  lemma OthersStay(w: World, ttl: real, s: State, step: Step)
    requires Enabled(s, step)
    ensures var next := After(w, ttl, s, step);
      && s.now <= next.now
      && (forall id :: id != step.id ==>
            (Waits(next, id) <==> Waits(s, id)) && (Waits(s, id) ==> next.calls[id] == s.calls[id]))
      && (step.Response? ==>
            next.cache == s.cache[s.calls[step.id].url := next.cache[s.calls[step.id].url]]
            && next.cache[s.calls[step.id].url].ts == s.calls[step.id].asked)
      && (!step.Response? ==> next.cache == s.cache)
      && (Waits(next, step.id) ==>
            !step.Failure? && s.now <= next.calls[step.id].asked <= next.now
            && (step.Response? ==> next.calls[step.id].url == s.calls[step.id].url))
  {
  }

  lemma StepOrderly(w: World, ttl: real, s: State, step: Step)
    requires Orderly(s) && Enabled(s, step) && BeginsAlone(w, ttl, s, step)
    ensures Orderly(After(w, ttl, s, step)) && StepKeepsTime(w, ttl, s, step)
  {
    OthersStay(w, ttl, s, step);
    var next := After(w, ttl, s, step);
    forall id | Waits(next, id)
      ensures next.calls[id].asked <= next.now
      ensures next.calls[id].url in next.cache ==> next.cache[next.calls[id].url].ts <= next.calls[id].asked
    {
      if id == step.id {
        assert next.calls[id].url in s.cache ==> s.cache[next.calls[id].url].ts <= s.now;
      } else if step.Response? {
        assert Waits(s, step.id) && Waits(s, id) && s.calls[id].url != s.calls[step.id].url;
      }
    }
  }

  // While no fetch of a URL begins with another of that URL outstanding, no entry goes back in time.
  lemma {:induction false} OneFetchNeverBack(w: World, ttl: real, s: State, steps: seq<Step>)
    requires Orderly(s) && Possible(w, ttl, s, steps) && OneFetchAtATime(w, ttl, s, steps)
    ensures NeverBack(w, ttl, s, steps)
    decreases |steps|
  {
    if steps == [] {
    } else {
      StepOrderly(w, ttl, s, steps[0]);
      OneFetchNeverBack(w, ttl, After(w, ttl, s, steps[0]), steps[1..]);
    }
  }

  lemma OneFetchAtATimeIsEnough(w: World, ttl: real, steps: seq<Step>)
    requires Possible(w, ttl, INITIAL, steps) && OneFetchAtATime(w, ttl, INITIAL, steps)
    ensures NeverBack(w, ttl, INITIAL, steps) && InAskedOrder(Answers(w, ttl, INITIAL, steps))
  {
    OneFetchNeverBack(w, ttl, INITIAL, steps);
    NeverBackIffAskedOrder(w, ttl, steps);
  }
}
