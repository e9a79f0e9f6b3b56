/** What a mesh keeps on its router pod: the list of versions that the router program edits, and the reference count in
    the pod's annotations. */
module RouterPod {
  import opened Text

  // ----- cmd/router -----

  function RemoveFirst(versions: seq<string>, version: string): seq<string> {
    if versions == [] then []
    else if versions[0] == version then versions[1..]
    else [versions[0]] + RemoveFirst(versions[1..], version)
  }

  predicate NoDuplicates(versions: seq<string>) {
    forall i, j :: 0 <= i < j < |versions| ==> versions[i] != versions[j]
  }

  /** On a list without duplicates, removing takes out exactly the one version. */
  lemma {:induction false} RemoveFirstIsRemoval(versions: seq<string>, version: string)
    requires NoDuplicates(versions)
    ensures NoDuplicates(RemoveFirst(versions, version))
    ensures forall v :: v in RemoveFirst(versions, version) <==> v in versions && v != version
  {
    if versions != [] {
      assert forall v :: v in versions <==> v == versions[0] || v in versions[1..];
      if versions[0] != version {
        RemoveFirstIsRemoval(versions[1..], version);
        var rest := RemoveFirst(versions[1..], version);
        assert versions[0] !in versions[1..];
        assert forall i :: 0 <= i < |rest| ==> rest[i] in rest;
        assert forall v :: v in [versions[0]] + rest <==> v == versions[0] || v in rest;
      }
    }
  }

  lemma {:induction false} RemoveFirstAt(versions: seq<string>, i: nat, version: string)
    requires i < |versions| && versions[i] == version && version !in versions[..i]
    ensures RemoveFirst(versions, version) == versions[..i] + versions[i + 1..]
  {
    if i > 0 {
      assert versions[..i][0] == versions[0];
      assert versions[1..][..i - 1] == versions[..i][1..];
      RemoveFirstAt(versions[1..], i - 1, version);
      assert versions[1..][i..] == versions[i + 1..];
      assert [versions[0]] + versions[..i][1..] == versions[..i];
    }
  }

  lemma {:induction false} RemoveFirstMisses(versions: seq<string>, version: string)
    requires version !in versions
    ensures RemoveFirst(versions, version) == versions
  {
    if versions != [] {
      RemoveFirstMisses(versions[1..], version);
    }
  }

  lemma AppendIsAddition(versions: seq<string>, version: string)
    requires NoDuplicates(versions) && version !in versions
    ensures NoDuplicates(versions + [version])
    ensures forall v :: v in versions + [version] <==> v in versions || v == version
  {
  }

  datatype Action = Add | Remove

  /** A version mark is split at its colon; dashes of the header name become underscores. */
  function HeaderOf(mark: string): string
    requires ':' in mark
  {
    Underscored(Split(mark, ':')[0])
  }

  function VersionOf(mark: string): string
    requires ':' in mark
  {
    CountIsZero(mark, ':');
    Split(mark, ':')[1]
  }

  function Underscored(s: string): string {
    if s == "" then "" else [if s[0] == '-' then '_' else s[0]] + Underscored(s[1..])
  }

  lemma {:induction false} UnderscoredAt(s: string)
    ensures |Underscored(s)| == |s|
    ensures forall k | 0 <= k < |s| :: Underscored(s)[k] == if s[k] == '-' then '_' else s[k]
  {
    if s != "" {
      UnderscoredAt(s[1..]);
    }
  }

  /** A mark is the name of the header and the version; what may stand behind a second colon is ignored. */
  lemma MarkIs(mark: string, name: string, version: string, more: string)
    requires ':' !in name && ':' !in version
    requires mark == name + ":" + version || mark == name + ":" + version + ":" + more
    ensures ':' in mark && VersionOf(mark) == version && |HeaderOf(mark)| == |name|
    ensures forall k | 0 <= k < |name| :: HeaderOf(mark)[k] == if name[k] == '-' then '_' else name[k]
  {
    var rest := if mark == name + ":" + version then version else version + ":" + more;
    assert ":" == [':'] && mark == name + [':'] + rest && mark[|name|] == ':';
    SplitCons(name, rest, ':');
    if rest == version {
      SplitPlain(version, ':');
    } else {
      SplitCons(version, more, ':');
    }
    hide Split;
    UnderscoredAt(name);
  }

  /** What the list becomes; None if the header is not the router's. */
  function Updated(confHeader: string, versions: seq<string>, header: string, version: string, action: Action)
    : Option<seq<string>>
  {
    if confHeader != header then None
    else match action
      case Add => Some(versions + [version])
      case Remove => Some(RemoveFirst(versions, version))
  }

  class KtConf {
    var header: string
    var versions: seq<string>

    constructor Setup(mark: string)
      requires ':' in mark
      ensures header == HeaderOf(mark) && versions == [VersionOf(mark)]
    {
      header := HeaderOf(mark);
      versions := [VersionOf(mark)];
    }

    method UpdateRoute(header: string, version: string, action: Action) returns (ok: bool)
      modifies this`versions
      ensures ok <==> Updated(old(this.header), old(versions), header, version, action).Some?
      ensures versions ==
              if ok then Updated(old(this.header), old(versions), header, version, action).value else old(versions)
    {
      if this.header != header {
        return false;
      }
      match action {
      case Add =>
        versions := versions + [version];
      case Remove =>
        var before := versions;
        for i := 0 to |before|
          invariant versions == before && version !in before[..i]
        {
          if before[i] == version {
            RemoveFirstAt(before, i, version);
            versions := before[..i] + before[i + 1..];
            return true;
          }
        }
        RemoveFirstMisses(before, version);
      }
      return true;
    }
  }

  // ----- reference count -----

  const KT_REF_COUNT := "kt-ref-count"

  /** What strconv.Atoi makes of the annotation; a missing annotation reads as the empty string. */
  function RefCount(annotations: map<string, string>): Option<int> {
    Atoi(if KT_REF_COUNT in annotations then annotations[KT_REF_COUNT] else "")
  }

  /** A count is there exactly if the annotation has a number, and a printed count is that number. */
  lemma CountIs(annotations: map<string, string>, n: int)
    requires -INT64_LIMIT <= n < INT64_LIMIT
    ensures "kt-ref-count" !in annotations ==> RefCount(annotations).None?
    ensures "kt-ref-count" in annotations && annotations["kt-ref-count"] == Itoa(n) ==> RefCount(annotations) == Some(n)
  {
    AtoiOfItoa(n);
    assert Atoi("").None?;
  }

  /** The pod as a client read it. */
  datatype Copy = Copy(annotations: map<string, string>, version: nat)

  /** The stored pod. Every write raises its resource version, and an update from a copy of another version is refused.
      */
  class Pod {
    var annotations: map<string, string>
    var version: nat

    /** Somebody else, such as a heartbeat, writes; None: nobody does. */
    method Interfere(other: Option<map<string, string>>)
      modifies this
      ensures annotations == if other.Some? then other.value else old(annotations)
      ensures version == old(version) <==> other.None?
    {
      if other.Some? {
        annotations, version := other.value, version + 1;
      }
    }

    method UpdatePod(copy: Copy, reachable: bool) returns (ok: bool)
      modifies this
      ensures ok <==> reachable && copy.version == old(version)
      ensures annotations == if ok then copy.annotations else old(annotations)
      ensures if ok then version > old(version) else version == old(version)
    {
      ok := reachable && copy.version == version;
      if ok {
        annotations, version := copy.annotations, version + 1;
      }
    }

    /** `other`: what another writer stores between the read and the update. */
    method IncreasePodRef(other: Option<map<string, string>>, reachable: bool) returns (ok: bool)
      requires RefCount(annotations).Some? ==> RefCount(annotations).value + 1 < INT64_LIMIT
      modifies this
      ensures ok <==> old(RefCount(annotations)).Some? && other.None? && reachable
      ensures if ok then RefCount(annotations) == Some(old(RefCount(annotations)).value + 1)
              else annotations == if other.Some? then other.value else old(annotations)
      ensures ok ==> annotations == old(annotations)[KT_REF_COUNT := Itoa(old(RefCount(annotations)).value + 1)]
    {
      hide Itoa, Atoi;
      var copy := Copy(annotations, version);
      var count := RefCount(copy.annotations);
      Interfere(other);
      if count.None? {
        return false;
      }
      AtoiRange(if KT_REF_COUNT in copy.annotations then copy.annotations[KT_REF_COUNT] else "");
      AtoiOfItoa(count.value + 1);
      ok := UpdatePod(copy.(annotations := copy.annotations[KT_REF_COUNT := Itoa(count.value + 1)]), reachable);
    }

    /** The error of the update is dropped: the caller cannot tell that the count stayed. */
    method DecreasePodRef(other: Option<map<string, string>>, reachable: bool) returns (last: bool, ok: bool)
      modifies this
      ensures last <==> KT_REF_COUNT in old(annotations) && old(annotations[KT_REF_COUNT]) == "1"
      ensures forall n :: KT_REF_COUNT in old(annotations) && old(annotations[KT_REF_COUNT]) == Itoa(n)
                          ==> (last <==> n == 1)
      ensures ok <==> last || old(RefCount(annotations)).Some?
      ensures if last || !ok || other.Some? || !reachable
              then annotations == if other.Some? then other.value else old(annotations)
              else
                && (old(RefCount(annotations)).value > -INT64_LIMIT ==>
                      RefCount(annotations) == Some(old(RefCount(annotations)).value - 1))
                && annotations == old(annotations)[KT_REF_COUNT := Itoa(old(RefCount(annotations)).value - 1)]
    {
      var copy := Copy(annotations, version);
      PrintedOnes();
      hide Itoa, Atoi;
      var refCount := if KT_REF_COUNT in copy.annotations then copy.annotations[KT_REF_COUNT] else "";
      Interfere(other);
      if refCount == "1" {
        return true, true;
      }
      var count := Atoi(refCount);
      if count.None? {
        return false, false;
      }
      AtoiRange(refCount);
      if count.value > -INT64_LIMIT {
        AtoiOfItoa(count.value - 1);
      }
      var updated := UpdatePod(copy.(annotations := copy.annotations[KT_REF_COUNT := Itoa(count.value - 1)]),
                               reachable);
      return false, true;
    }
  }

  lemma PrintedOnes()
    ensures forall n :: Itoa(n) == "1" <==> n == 1
  {
    forall n
      ensures Itoa(n) == "1" <==> n == 1
    {
      PrintedOne(n);
    }
  }

  lemma AtoiRange(s: string)
    ensures Atoi(s).Some? ==> -INT64_LIMIT <= Atoi(s).value < INT64_LIMIT
  {
  }

  /** A printed count is "1" exactly when it is one: the comparison of texts decides about the last reference. */
  lemma PrintedOne(n: int)
    ensures Itoa(n) == "1" <==> n == 1
  {
    SignedDecimalOfItoa(n);
    SignedDecimalOfItoa(1);
    assert Itoa(1) == "1";
  }
}
