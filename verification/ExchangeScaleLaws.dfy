/** The replica count comes back: through the annotation, after each way to end an exchange, and over runs of exchanges.
    */
module ExchangeScaleLaws {
  import opened Text
  import opened ExchangeScale

  // ----- the annotation -----

  lemma ItemOf(key: string, value: string, m: map<string, string>)
    requires key != "" && '=' !in key
    ensures WithItem(m, key + "=" + value) == m[key := value]
  {
    var item := key + "=" + value;
    BeforeFirst(key, value, '=');
    assert item[|key|] == '=' && item[|key| + 1..] == value;
  }

  lemma MapOfNext(items: seq<string>, item: string)
    ensures MapOf(items + [item]) == WithItem(MapOf(items), item)
  {
    hide WithItem;
    assert (items + [item])[..|items|] == items;
  }

  lemma Regrouped<T>(a: seq<T>, b: seq<T>, c: seq<T>, d: seq<T>)
    ensures a + (b + c) + d == a + b + (c + d)
  {
  }

  lemma ItemsOf(name: string, n: int)
    ensures Split(Annotation(name, n), ',') == Split("app=" + name, ',') + ["replicas=" + Itoa(n)]
  {
    var last := "replicas=" + Itoa(n);
    hide Split;
    assert ',' !in last;
    hide Itoa;
    SplitPlain(last, ',');
    SplitConcat("app=" + name, last, ',');
    assert ",replicas=" == [','] + "replicas=";
    Regrouped("app=" + name, [','], "replicas=", Itoa(n));
  }

  /** The count is always read back, whatever the name is. */
  lemma ReplicasRoundTrip(name: string, n: Replicas)
    ensures ConfigOf(Annotation(name, n)).replicas == n
  {
    var items := Split("app=" + name, ',');
    ItemsOf(name, n);
    SignedDecimalOfItoa(n);
    hide Itoa, Split, Annotation;
    MapOfNext(items, "replicas=" + Itoa(n));
    assert "replicas=" + Itoa(n) == "replicas" + "=" + Itoa(n);
    ItemOf("replicas", Itoa(n), MapOf(items));
  }

  /** No value of the map has a comma. */
  lemma {:induction false} ValuesHaveNoComma(items: seq<string>)
    requires forall item | item in items :: ',' !in item
    ensures forall key | key in MapOf(items) :: ',' !in MapOf(items)[key]
  {
    if items != [] {
      var n := |items| - 1;
      assert items[n] in items;
      ValuesHaveNoComma(items[..n]);
      forall k | 0 <= k <= |items[n]|
        ensures ',' !in items[n][k..]
      {
      }
    }
  }

  lemma ItemsRead(name: string, replicas: string)
    ensures MapOf(["app=" + name] + ["replicas=" + replicas]) == map["app" := name, "replicas" := replicas]
  {
    assert "app=" + name == "app" + "=" + name && "replicas=" + replicas == "replicas" + "=" + replicas;
    ItemOf("app", name, map[]);
    ItemOf("replicas", replicas, map["app" := name]);
    var first, second := "app=" + name, "replicas=" + replicas;
    hide WithItem;
    MapOfNext([], first);
    assert [] + [first] == [first];
    MapOfNext([first], second);
  }

  lemma AppIsRead(name: string, n: Replicas)
    requires ',' !in name
    ensures ConfigOf(Annotation(name, n)).app == name
  {
    ItemsOf(name, n);
    assert ',' !in "app=" + name;
    hide Split, Annotation, Itoa, MapOf, ParseInt32;
    SplitPlain("app=" + name, ',');
    ItemsRead(name, Itoa(n));
  }

  /** The name is read back exactly if it has no comma. */
  lemma AppRoundTripIff(name: string, n: Replicas)
    ensures ConfigOf(Annotation(name, n)).app == name <==> ',' !in name
  {
    if ',' !in name {
      AppIsRead(name, n);
    } else {
      var annotation := Annotation(name, n);
      hide Split, Annotation, MapOf, ParseInt32;
      ValuesHaveNoComma(Split(annotation, ','));
    }
  }

  // ----- one exchange -----

  /** The process's own teardown restores all counts exactly if its call is served, or there is nothing to restore. */
  lemma TeardownRestoresIff(w: World, id: nat, name: string, shadowed: bool, scaled: bool, reached: bool)
    requires name in w.deployments
    ensures var during := AfterExchange(w, id, name, shadowed, scaled);
            Ended(during.deployments, during.sessions[id], Teardown, reached) == w.deployments
            <==> reached || !(shadowed && scaled) || w.deployments[name] == 0
  {
    var n := w.deployments[name];
    assert w.deployments == w.deployments[name := n];
    assert w.deployments[name := 0][name] == 0;
  }

  /** Recover and clean, which only have the annotation, restore the deployment exactly if it ran no replicas, or was
      not scaled down yet, or their call is served and its name has no comma; and without a comma they touch no other
      deployment. */
  lemma AnnotationRestoresIff(w: World, id: nat, name: string, shadowed: bool, scaled: bool, ending: Ending,
                              reached: bool)
    requires name in w.deployments && name != "" && !ending.Teardown?
    ensures var during := AfterExchange(w, id, name, shadowed, scaled);
            var after := Ended(during.deployments, during.sessions[id], ending, reached);
            && name in after
            && (after[name] == w.deployments[name]
                <==> w.deployments[name] == 0 || !(shadowed && scaled) || (reached && ',' !in name))
            && (',' !in name && reached ==> after == w.deployments)
  {
    var n := w.deployments[name];
    ReplicasRoundTrip(name, n);
    AppRoundTripIff(name, n);
    hide ConfigOf, Annotation;
    assert w.deployments == w.deployments[name := n];
  }

  // ----- runs -----

  function Run(w: World, steps: seq<Step>): Option<World> {
    if steps == [] then Some(w)
    else match Run(w, steps[..|steps| - 1])
      case None => None
      case Some(v) => Apply(v, steps[|steps| - 1])
  }

  /** One exchange after the other, of deployments with proper names. */
  ghost predicate Serial(w: World, steps: seq<Step>) {
    forall k | 0 <= k < |steps| && steps[k].Exchange? ::
      && steps[k].name != "" && ',' !in steps[k].name
      && (Run(w, steps[..k]).Some? ==> Run(w, steps[..k]).value.sessions == map[])
  }

  /** The calls that scale back are served. */
  predicate AllReached(steps: seq<Step>) {
    forall step | step in steps && step.End? :: step.reached
  }

  /** At most one session is open, and it remembers the original count in both places. */
  ghost predicate Remembered(w: World, original: map<string, Replicas>) {
    || (w.sessions == map[] && w.deployments == original)
    || exists id, name | name in original :: HoldsOne(w, original, id, name)
  }

  predicate HoldsOne(w: World, original: map<string, Replicas>, id: nat, name: string)
    requires name in original
  {
    && name != "" && ',' !in name && id in w.sessions
    && (exists shadowed, scaled :: w == AfterExchange(World(original, map[]), id, name, shadowed, scaled))
  }

  lemma StepRemembers(w: World, original: map<string, Replicas>, step: Step)
    requires Remembered(w, original) && Apply(w, step).Some?
    requires step.Exchange? ==> step.name != "" && ',' !in step.name && w.sessions == map[]
    requires step.End? ==> step.reached
    ensures Remembered(Apply(w, step).value, original)
  {
    var v := Apply(w, step).value;
    match step
    case Exchange(id, name, shadowed, scaled) =>
      assert v == AfterExchange(World(original, map[]), id, name, shadowed, scaled);
      assert HoldsOne(v, original, id, name);
    case End(id, ending, reached) =>
      var id', name :| name in original && HoldsOne(w, original, id', name);
      var shadowed, scaled :| w == AfterExchange(World(original, map[]), id', name, shadowed, scaled);
      EndRestores(original, id', name, shadowed, scaled, ending);
      assert v.sessions == map[];
  }

  lemma EndRestores(original: map<string, Replicas>, id: nat, name: string, shadowed: bool, scaled: bool,
                    ending: Ending)
    requires name in original && name != "" && ',' !in name
    ensures var during := AfterExchange(World(original, map[]), id, name, shadowed, scaled);
            Restored(during.deployments, during.sessions[id], ending) == original
  {
    hide Restored;
    if ending.Teardown? {
      TeardownRestoresIff(World(original, map[]), id, name, shadowed, scaled, true);
    } else {
      AnnotationRestoresIff(World(original, map[]), id, name, shadowed, scaled, ending, true);
    }
  }

  /** Exchanges that do not overlap conserve every count, wherever they fail and however they end. */
  lemma {:induction false} SerialRunsConserve(w: World, steps: seq<Step>)
    requires w.sessions == map[] && Serial(w, steps) && AllReached(steps) && Run(w, steps).Some?
    ensures Remembered(Run(w, steps).value, w.deployments)
    ensures Run(w, steps).value.sessions == map[] ==> Run(w, steps).value.deployments == w.deployments
  {
    if steps != [] {
      var n := |steps| - 1;
      assert forall k | 0 <= k < n :: steps[..n][k] == steps[k] && steps[..n][..k] == steps[..k];
      assert steps[n] in steps && forall step | step in steps[..n] :: step in steps;
      SerialRunsConserve(w, steps[..n]);
      hide Apply, Remembered;
      StepRemembers(Run(w, steps[..n]).value, w.deployments, steps[n]);
      hide Run;
      if Run(w, steps).value.sessions == map[] {
        NobodyLeft(Run(w, steps).value, w.deployments);
      }
    }
  }

  lemma NobodyLeft(w: World, original: map<string, Replicas>)
    requires Remembered(w, original) && w.sessions == map[]
    ensures w.deployments == original
  {
  }

  /** What the end of a session whose annotation is read makes of its deployment. */
  lemma EndsOne(w: World, id: nat, ending: Ending, name: string)
    requires id in w.sessions && name in w.deployments && w.sessions[id].origin == name != ""
    requires var s := w.sessions[id]; s.annotation.Some? && ConfigOf(s.annotation.value) == Config(name, s.replicas)
    ensures var after := Apply(w, End(id, ending, true));
            && after.Some? && after.value.sessions == w.sessions - {id} && name in after.value.deployments
            && after.value.deployments[name] ==
               if ending.Teardown? || w.sessions[id].replicas > 0 then w.sessions[id].replicas else w.deployments[name]
  {
    hide ConfigOf;
  }

  lemma BothExchanged(w: World, name: string)
    requires w.sessions == map[] && name in w.deployments
    ensures var both := AfterExchange(AfterExchange(w, 0, name, true, true), 1, name, true, true);
            && both.sessions.Keys == {0, 1} && name in both.deployments && both.deployments[name] == 0
            && both.sessions[0] == Session(name, w.deployments[name], Some(Annotation(name, w.deployments[name])))
            && both.sessions[1] == Session(name, 0, Some(Annotation(name, 0)))
            && both.sessions - {0} - {1} == map[] && both.sessions - {1} - {0} == map[]
  {
    hide Annotation;
  }

  /** Two exchanges of one deployment that overlap: the second one recorded the count to which the first one had scaled.
      The count comes back exactly if the second one ends first, or has only its annotation to end with. */
  lemma OverlapRestoresIff(w: World, name: string, first: Ending, second: Ending, secondEndsFirst: bool)
    requires w.sessions == map[] && name in w.deployments && name != "" && ',' !in name
    ensures var both := AfterExchange(AfterExchange(w, 0, name, true, true), 1, name, true, true);
            var end0, end1 := End(0, first, true), End(1, second, true);
            var one := Apply(both, if secondEndsFirst then end1 else end0);
            && one.Some?
            && var none := Apply(one.value, if secondEndsFirst then end0 else end1);
               && none.Some? && none.value.sessions == map[]
               && name in none.value.deployments
               && (none.value.deployments[name] == w.deployments[name]
                   <==> w.deployments[name] == 0 || secondEndsFirst || !second.Teardown?)
  {
    var n := w.deployments[name];
    ReplicasRoundTrip(name, n);
    AppRoundTripIff(name, n);
    ReplicasRoundTrip(name, 0);
    AppRoundTripIff(name, 0);
    BothExchanged(w, name);
    hide ConfigOf, Annotation, AfterExchange, Apply;
    var both := AfterExchange(AfterExchange(w, 0, name, true, true), 1, name, true, true);
    if secondEndsFirst {
      EndsOne(both, 1, second, name);
      EndsOne(Apply(both, End(1, second, true)).value, 0, first, name);
    } else {
      EndsOne(both, 0, first, name);
      EndsOne(Apply(both, End(0, first, true)).value, 1, second, name);
    }
  }

  // ----- any annotation -----

  /** The text gives the key its value: the key is what stands in front of the first equals sign. */
  predicate Says(item: string, key: string, value: string) {
    key != "" && '=' !in key && item == key + "=" + value
  }

  lemma ItemSays(m: map<string, string>, item: string, key: string, value: string)
    ensures Says(item, key, value) ==> WithItem(m, item) == m[key := value]
    ensures (forall v :: !Says(item, key, v)) ==> (key in WithItem(m, item) <==> key in m)
    ensures (forall v :: !Says(item, key, v)) && key in m ==> WithItem(m, item)[key] == m[key]
  {
    BeforeIsPrefix(item, '=');
    var front := Before(item, '=');
    if Says(item, key, value) {
      assert "=" == ['='];
      BeforeFirst(key, value, '=');
      assert item[|key|] == '=' && item[|key| + 1..] == value;
    } else if '=' in item && front != "" && |front| < |item| {
      assert item == front + "=" + item[|front| + 1..];
      assert Says(item, front, item[|front| + 1..]);
    }
  }

  ghost predicate SaysLast(items: seq<string>, k: nat, key: string, value: string) {
    && k < |items| && Says(items[k], key, value)
    && forall later, other | k < later < |items| :: !Says(items[later], key, other)
  }

  /** A key has the value that the last item with this key says; without one it is absent. */
  lemma {:induction false} LastItemWins(items: seq<string>, key: string)
    ensures if key in MapOf(items) then exists k: nat :: SaysLast(items, k, key, MapOf(items)[key])
            else forall k, value | 0 <= k < |items| :: !Says(items[k], key, value)
  {
    if items != [] {
      var n := |items| - 1;
      var front := items[..n];
      LastItemWins(front, key);
      hide Says, WithItem;
      forall value
        ensures Says(items[n], key, value) ==> MapOf(items) == MapOf(front)[key := value]
      {
        ItemSays(MapOf(front), items[n], key, value);
      }
      ItemSays(MapOf(front), items[n], key, "");
      hide MapOf;
      if value :| Says(items[n], key, value) {
        assert SaysLast(items, n, key, value);
      } else if key in MapOf(front) {
        var value := MapOf(front)[key];
        var k: nat :| SaysLast(front, k, key, value);
        forall later, other | k < later < |items|
          ensures !Says(items[later], key, other)
        {
          assert later < n ==> items[later] == front[later];
        }
        assert SaysLast(items, k, key, value);
      } else {
        forall k, value | 0 <= k < |items|
          ensures !Says(items[k], key, value)
        {
          assert k < n ==> items[k] == front[k];
        }
      }
    }
  }

  /** The annotation has an item with a key. */
  ghost predicate SaysSomething(annotation: string) {
    exists k, key, value | 0 <= k < |Split(annotation, ',')| :: Says(Split(annotation, ',')[k], key, value)
  }

  lemma MapOfSaid(annotation: string)
    ensures MapOf(Split(annotation, ',')) == map[] <==> !SaysSomething(annotation)
  {
    var items := Split(annotation, ',');
    hide MapOf, Split, Says;
    forall key
      ensures if key in MapOf(items) then exists k: nat :: SaysLast(items, k, key, MapOf(items)[key])
              else forall k, value | 0 <= k < |items| :: !Says(items[k], key, value)
    {
      LastItemWins(items, key);
    }
    if SaysSomething(annotation) {
      var k, key, value :| 0 <= k < |items| && Says(items[k], key, value);
      assert key in MapOf(items);
    }
    if MapOf(items) != map[] {
      var key :| key in MapOf(items);
      var k: nat :| SaysLast(items, k, key, MapOf(items)[key]);
      assert Says(items[k], key, MapOf(items)[key]);
    }
  }

  /** The value of a key in an annotation: that of its last item, and empty without one. */
  ghost predicate IsValueOf(annotation: string, key: string, value: string) {
    var items := Split(annotation, ',');
    if exists k, v | 0 <= k < |items| :: Says(items[k], key, v) then exists k: nat :: SaysLast(items, k, key, value)
    else value == ""
  }

  lemma ValueIs(annotation: string, key: string)
    ensures var m := MapOf(Split(annotation, ','));
            IsValueOf(annotation, key, if key in m then m[key] else "")
  {
    LastItemWins(Split(annotation, ','), key);
    hide MapOf, Split, Says;
  }

  /** Recover and clean read the pod's annotation, or the deployment's if there is nothing in it; a name or a count that
      it does not give is empty or zero, and nothing is scaled then. */
  lemma ConfigIs(pod: string, deployment: string)
    ensures var config := ConfigFrom(Some(pod), Some(deployment));
            var source := if SaysSomething(pod) then pod else deployment;
            && IsValueOf(source, "app", config.app)
            && exists count :: IsValueOf(source, "replicas", count) && config.replicas == ParseInt32(count)
    ensures ConfigFrom(None, Some(deployment)) == ConfigFrom(Some(""), Some(deployment))
    ensures ConfigFrom(Some(pod), None) == ConfigFrom(Some(pod), Some("")) && ConfigFrom(None, None) == Config("", 0)
  {
    var source := if SaysSomething(pod) then pod else deployment;
    MapOfSaid(pod);
    MapOfSaid("");
    ValueIs(source, "app");
    ValueIs(source, "replicas");
    assert !SaysSomething("") by {
      SplitPlain("", ',');
    }
    assert ParseInt32("") == 0;
    hide MapOf, Split, SaysSomething, IsValueOf, ParseInt32;
  }

  // ----- one step -----

  /** Whoever ends, and however: no deployment comes or goes, and only the one that was scaled may change. */
  lemma EndTouchesOne(deployments: map<string, Replicas>, session: Session, ending: Ending, reached: bool,
                      other: string)
    ensures var after := Ended(deployments, session, ending, reached);
            && (other in after <==> other in deployments)
            && (other in after && after[other] != deployments[other] ==>
                  reached && other == if ending.Teardown? then session.origin
                                      else if session.annotation.Some? then ConfigOf(session.annotation.value).app
                                      else "")
  {
    hide ConfigOf;
  }

  /** A process can start to exchange a deployment that is there, and then it can end in every way. */
  lemma ExchangeCanEnd(w: World, id: nat, name: string, shadowed: bool, scaled: bool, ending: Ending, reached: bool)
    requires id !in w.sessions && name in w.deployments
    ensures var during := Apply(w, Exchange(id, name, shadowed, scaled));
            && during.Some? && during.value.sessions.Keys == w.sessions.Keys + {id}
            && var after := Apply(during.value, End(id, ending, reached));
               after.Some? && after.value.sessions == w.sessions
  {
    hide Ended;
    var session := AfterExchange(w, id, name, shadowed, scaled).sessions[id];
    assert w.sessions[id := session] - {id} == w.sessions;
  }
}
