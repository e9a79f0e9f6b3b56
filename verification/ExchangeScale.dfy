/** Exchange by scale: the replica count that the process and the shadow pod remember, and the ways back to it. */
module ExchangeScale {
  import opened Text

  // ----- "app=..,replicas=.." -----

  function WithItem(m: map<string, string>, item: string): map<string, string> {
    var key := Before(item, '=');
    if '=' in item && key != "" && |key| < |item| then m[key := item[|key| + 1..]] else m
  }

  function MapOf(items: seq<string>): map<string, string> {
    if items == [] then map[] else WithItem(MapOf(items[..|items| - 1]), items[|items| - 1])
  }

  method Index(s: string, c: char) returns (i: int)
    ensures i == if c in s then |Before(s, c)| else -1
  {
    BeforeIsPrefix(s, c);
    i := 0;
    while i < |s|
      invariant 0 <= i <= |Before(s, c)|
    {
      if s[i] == c {
        return;
      }
      i := i + 1;
    }
    return -1;
  }

  method String2Map(str: string) returns (res: map<string, string>)
    ensures res == MapOf(Split(str, ','))
  {
    res := map[];
    var splitStr := Split(str, ',');
    hide Split;
    for i := 0 to |splitStr|
      invariant res == MapOf(splitStr[..i])
    {
      assert MapOf(splitStr[..i + 1]) == WithItem(MapOf(splitStr[..i]), splitStr[i]) by {
        assert splitStr[..i + 1][..i] == splitStr[..i];
      }
      hide MapOf;
      BeforeIsPrefix(splitStr[i], '=');
      var index := Index(splitStr[i], '=');
      assert splitStr[i][..|Before(splitStr[i], '=')|] == Before(splitStr[i], '=');
      if index > 0 {
        res := res[splitStr[i][..index] := splitStr[i][index + 1..]];
      }
    }
    assert splitStr[..|splitStr|] == splitStr;
  }

  function Annotation(app: string, replicas: int): string {
    "app=" + app + ",replicas=" + Itoa(replicas)
  }

  /** What recover and clean read from the annotation; an absent key reads as the empty string. */
  datatype Config = Config(app: string, replicas: int)

  function ConfigIn(m: map<string, string>): Config {
    Config(if "app" in m then m["app"] else "", ParseInt32(if "replicas" in m then m["replicas"] else ""))
  }

  function ConfigOf(annotation: string): Config {
    ConfigIn(MapOf(Split(annotation, ',')))
  }

  // ----- processes and deployments -----

  type Replicas = r: int | 0 <= r < INT32_LIMIT

  /** opt.Store of a process that exchanges, and the annotation of its shadow pod, if that was created. */
  datatype Session = Session(origin: string, replicas: Replicas, annotation: Option<string>)

  datatype World = World(deployments: map<string, Replicas>, sessions: map<nat, Session>)

  datatype Ending = Teardown | Recover | Clean

  datatype Step =
    | Exchange(id: nat, name: string, shadowed: bool, scaled: bool)
    | End(id: nat, ending: Ending, reached: bool)

  function Scaled(deployments: map<string, Replicas>, name: string, replicas: Replicas): map<string, Replicas> {
    if name in deployments then deployments[name := replicas] else deployments
  }

  /** ByScale: record, create the annotated shadow pod, scale down; each call may fail and end the command. */
  function AfterExchange(w: World, id: nat, name: string, shadowed: bool, scaled: bool): World
    requires name in w.deployments
  {
    var n := w.deployments[name];
    var session := Session(name, n, if shadowed then Some(Annotation(name, n)) else None);
    World(if shadowed && scaled then w.deployments[name := 0] else w.deployments, w.sessions[id := session])
  }

  /** The process's own teardown uses what it recorded; recover and clean, after a crash, only the annotation. */
  function Restored(deployments: map<string, Replicas>, session: Session, ending: Ending): map<string, Replicas> {
    if ending.Teardown? then Scaled(deployments, session.origin, session.replicas)
    else if session.annotation.None? then deployments
    else
      var config := ConfigOf(session.annotation.value);
      if config.replicas > 0 && config.app != "" then Scaled(deployments, config.app, config.replicas) else deployments
  }

  /** `reached`: the server took the call that scales back; nothing repeats it. */
  function Ended(deployments: map<string, Replicas>, session: Session, ending: Ending, reached: bool)
    : map<string, Replicas>
  {
    if reached then Restored(deployments, session, ending) else deployments
  }

  /** A shadow deployment's annotation is read if there is no pod, or nothing in the pod's. */
  function ConfigFrom(pod: Option<string>, deployment: Option<string>): Config {
    var m := if pod.Some? then MapOf(Split(pod.value, ',')) else map[];
    ConfigIn(if m == map[] && deployment.Some? then MapOf(Split(deployment.value, ',')) else m)
  }

  function Apply(w: World, step: Step): Option<World> {
    match step
    case Exchange(id, name, shadowed, scaled) =>
      if id in w.sessions || name !in w.deployments then None else Some(AfterExchange(w, id, name, shadowed, scaled))
    case End(id, ending, reached) =>
      if id !in w.sessions then None
      else Some(World(Ended(w.deployments, w.sessions[id], ending, reached), w.sessions - {id}))
  }

  /** The cluster's deployments, and opt.Store of one process. */
  class Process {
    var deployments: map<string, Replicas>
    var origin: string
    var replicas: Replicas
    var annotation: Option<string>

    method ScaleTo(name: string, replicas: Replicas, reachable: bool) returns (ok: bool)
      modifies this`deployments
      ensures ok <==> name in old(deployments) && (reachable || old(deployments[name]) == replicas)
      ensures deployments == if ok then Scaled(old(deployments), name, replicas) else old(deployments)
    {
      if name !in deployments {
        return false;
      }
      if deployments[name] == replicas {
        assert deployments == deployments[name := replicas];
        return true;
      }
      if !reachable {
        return false;
      }
      deployments := deployments[name := replicas];
      return true;
    }

    method ByScale(name: string, shadowed: bool, reachable: bool) returns (ok: bool)
      requires annotation.None?
      modifies this
      ensures ok <==> name in old(deployments) && shadowed && (reachable || old(deployments[name]) == 0)
      ensures name in old(deployments) ==> origin == name && replicas == old(deployments[name])
      ensures annotation == if name in old(deployments) && shadowed
                            then Some("app=" + name + ",replicas=" + Itoa(old(deployments[name]))) else None
      ensures deployments == if ok then old(deployments)[name := 0] else old(deployments)
      ensures name !in old(deployments) ==>
                !ok && deployments == old(deployments) && origin == old(origin) && annotation == None
      ensures name in old(deployments) ==>
                exists scaled ::
                  && ok == (shadowed && scaled)
                  && var w := AfterExchange(World(old(deployments), map[]), 0, name, shadowed, scaled);
                     deployments == w.deployments && Session(origin, replicas, annotation) == w.sessions[0]
    {
      if name !in deployments {
        return false;
      }
      origin := name;
      replicas := deployments[name];
      if !shadowed {
        assert AfterExchange(World(deployments, map[]), 0, name, shadowed, false).deployments == deployments;
        return false;
      }
      annotation := Some("app=" + origin + ",replicas=" + Itoa(replicas));
      ok := ScaleTo(name, 0, reachable);
      assert AfterExchange(World(old(deployments), map[]), 0, name, shadowed, ok).deployments == deployments;
    }

    /** HandleExchangedByScaleService, with the annotation of the pod or of the deployment that the service selects. */
    method RecoverFromAnnotation(pod: Option<string>, deployment: Option<string>, reachable: bool)
      modifies this`deployments
      ensures var config := ConfigFrom(pod, deployment);
              deployments == if config.replicas > 0 && config.app != "" && reachable
                             then Scaled(old(deployments), config.app, config.replicas) else old(deployments)
    {
      var config := ReadConfig(pod, deployment);
      hide ConfigFrom;
      if config.replicas > 0 && config.app != "" {
        ReplicasInRange(pod, deployment);
        var ok := ScaleTo(config.app, config.replicas, reachable);
      }
    }
  }

  method ReadConfig(pod: Option<string>, deployment: Option<string>) returns (c: Config)
    ensures c == ConfigFrom(pod, deployment)
  {
    var config: map<string, string> := map[];
    hide MapOf, ParseInt32, Split;
    if pod.Some? {
      config := String2Map(pod.value);
    }
    if |config| == 0 && deployment.Some? {
      config := String2Map(deployment.value);
    }
    var replica := ParseInt32(if "replicas" in config then config["replicas"] else "");
    var app := if "app" in config then config["app"] else "";
    return Config(app, replica);
  }

  lemma ReplicasInRange(pod: Option<string>, deployment: Option<string>)
    ensures ConfigFrom(pod, deployment).replicas < INT32_LIMIT
  {
    hide MapOf, Split, SignedDecimal;
  }

  /** Whichever of the two carries the annotation, it is read. */
  lemma EitherCarriesIt(annotation: string)
    ensures ConfigFrom(Some(annotation), None) == ConfigFrom(None, Some(annotation)) == ConfigOf(annotation)
  {
    hide MapOf, ParseInt32, Split;
  }
}
