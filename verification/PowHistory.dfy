/** The duplicate-share check: a ZSET of share keys pruned by height (`checkPoWExist` in
    storage/redis.go), against the whole history of submissions.
    Heights are uint64; scores are float64, exact below 2^53. */
module PowHistory {

  /** `height - 3` in uint64 arithmetic. */
  function Cutoff(height: nat): nat {
    if height >= 3 then height - 3 else 0x1_0000_0000_0000_0000 + height - 3
  }

  /** The cutoff is three below the height, counted with 64 bits. */
  lemma CutoffWraps(height: nat)
    requires height < 0x1_0000_0000_0000_0000
    ensures Cutoff(height) < 0x1_0000_0000_0000_0000 && (Cutoff(height) + 3) % 0x1_0000_0000_0000_0000 == height
  {
  }

  /** `ZREMRANGEBYSCORE pow -inf (cutoff`: members scored below the cutoff go. */
  function PruneBelow(pow: map<string, nat>, cutoff: nat): map<string, nat> {
    map k | k in pow && pow[k] >= cutoff :: pow[k]
  }

  /** The two commands of a check. Other clients' commands may come between them. */
  datatype Command = Prune(height: nat) | Add(key: string, height: nat)

  function Execute(pow: map<string, nat>, c: Command): map<string, nat> {
    match c
    case Prune(height) => PruneBelow(pow, Cutoff(height))
    case Add(key, height) => pow[key := height]
  }

  function Replay(cmds: seq<Command>): map<string, nat> {
    if cmds == [] then map[] else Execute(Replay(cmds[..|cmds| - 1]), cmds[|cmds| - 1])
  }

  /** ZADD returns 0, which is reported as a duplicate. */
  predicate ReportedDuplicate(cmds: seq<Command>, i: nat)
    requires i < |cmds| && cmds[i].Add?
  {
    cmds[i].key in Replay(cmds[..i])
  }

  /** Command `i` added the key, nothing added it since, and no prune since went past its height. */
  ghost predicate StillRemembered(cmds: seq<Command>, key: string, i: int) {
    && 0 <= i < |cmds| && cmds[i].Add? && cmds[i].key == key
    && (forall j :: i < j < |cmds| ==>
          match cmds[j]
          case Prune(height) => Cutoff(height) <= cmds[i].height
          case Add(k, _) => k != key)
  }

  /** The pruned set agrees with the full history: it holds a key exactly if the key's latest
      addition is still remembered, and then with that addition's height. */
  lemma {:induction false} PrunedSetIsHistory(cmds: seq<Command>, key: string)
    ensures key in Replay(cmds) <==> exists i :: StillRemembered(cmds, key, i)
    ensures forall i :: StillRemembered(cmds, key, i) ==> key in Replay(cmds) && Replay(cmds)[key] == cmds[i].height
  {
    if cmds != [] {
      var n := |cmds| - 1;
      var front, last := cmds[..n], cmds[n];
      PrunedSetIsHistory(front, key);
      if last.Add? && last.key == key {
        assert StillRemembered(cmds, key, n);
      } else {
        forall i ensures StillRemembered(cmds, key, i) <==>
          StillRemembered(front, key, i) && (last.Prune? ==> Cutoff(last.height) <= front[i].height)
        {
          RememberOneMore(cmds, key, i);
        }
      }
    }
  }

  lemma RememberOneMore(cmds: seq<Command>, key: string, i: int)
    requires cmds != []
    requires var last := cmds[|cmds| - 1]; !(last.Add? && last.key == key)
    ensures var front, last := cmds[..|cmds| - 1], cmds[|cmds| - 1];
      StillRemembered(cmds, key, i) <==>
      StillRemembered(front, key, i) && (last.Prune? ==> Cutoff(last.height) <= front[i].height)
  {
    var front := cmds[..|cmds| - 1];
    if StillRemembered(cmds, key, i) {
      assert forall j :: i < j < |front| ==> front[j] == cmds[j];
    }
    if StillRemembered(front, key, i) {
      assert front[i] == cmds[i];
      assert forall j :: i < j < |front| ==> front[j] == cmds[j];
    }
  }

  /** However the commands of many clients interleave, a key is counted a second time only after
      some prune went past the height of an addition of it in between. */
  lemma CountedOncePerWindow(cmds: seq<Command>, i: nat, j: nat) returns (last: nat, prune: nat)
    requires i < j < |cmds| && cmds[i].Add? && cmds[j].Add? && cmds[i].key == cmds[j].key
    requires !ReportedDuplicate(cmds, j)
    ensures i <= last < prune < j && cmds[last].Add? && cmds[last].key == cmds[i].key
    ensures cmds[prune].Prune? && Cutoff(cmds[prune].height) > cmds[last].height
  {
    var key, before := cmds[i].key, cmds[..j];
    last := i;
    var k := i + 1;
    while k < j
      invariant i <= last < k <= j && before[last].Add? && before[last].key == key
      invariant forall m :: last < m < k ==> !(before[m].Add? && before[m].key == key)
    {
      if before[k].Add? && before[k].key == key {
        last := k;
      }
      k := k + 1;
    }
    PrunedSetIsHistory(before, key);
    assert !StillRemembered(before, key, last);
    prune :| last < prune < j && before[prune].Prune? && Cutoff(before[prune].height) > before[last].height;
  }

  datatype Submission = Submission(key: string, height: nat)

  /** The set after submissions that do not interleave. */
  function AfterSubmissions(subs: seq<Submission>): map<string, nat> {
    if subs == [] then map[]
    else
      var s := subs[|subs| - 1];
      Execute(Execute(AfterSubmissions(subs[..|subs| - 1]), Prune(s.height)), Add(s.key, s.height))
  }

  predicate IsDuplicate(subs: seq<Submission>, s: Submission) {
    s.key in PruneBelow(AfterSubmissions(subs), Cutoff(s.height))
  }

  ghost predicate LatestOf(subs: seq<Submission>, key: string, i: int) {
    0 <= i < |subs| && subs[i].key == key && forall j :: i < j < |subs| ==> subs[j].key != key
  }

  lemma {:induction false} SetAfterSubmissions(subs: seq<Submission>, key: string)
    ensures forall i :: LatestOf(subs, key, i) ==>
      (key in AfterSubmissions(subs) <==> forall j :: i < j < |subs| ==> Cutoff(subs[j].height) <= subs[i].height)
    ensures forall i :: LatestOf(subs, key, i) && key in AfterSubmissions(subs) ==>
      AfterSubmissions(subs)[key] == subs[i].height
    ensures key in AfterSubmissions(subs) ==> exists i :: LatestOf(subs, key, i)
  {
    if subs != [] {
      var n := |subs| - 1;
      var front := subs[..n];
      SetAfterSubmissions(front, key);
      if subs[n].key == key {
        assert LatestOf(subs, key, n);
      } else {
        forall i ensures LatestOf(subs, key, i) <==> LatestOf(front, key, i) {
          assert forall j :: 0 <= j < n ==> front[j] == subs[j];
        }
        forall i | LatestOf(subs, key, i)
          ensures (forall j :: i < j < |subs| ==> Cutoff(subs[j].height) <= subs[i].height) <==>
                  (forall j :: i < j < n ==> Cutoff(front[j].height) <= front[i].height)
                    && Cutoff(subs[n].height) <= subs[i].height
        {
          assert forall j :: 0 <= j < n ==> front[j] == subs[j];
        }
      }
    }
  }

  /** A submission is reported duplicate exactly if its key was submitted before and no submission
      after the latest one, the new one included, was more than three above that one's height. */
  lemma DuplicateIff(subs: seq<Submission>, s: Submission)
    requires s.height >= 3 && forall x <- subs :: x.height >= 3
    ensures IsDuplicate(subs, s) <==>
      exists i :: LatestOf(subs, s.key, i) && s.height <= subs[i].height + 3
               && forall j :: i < j < |subs| ==> subs[j].height <= subs[i].height + 3
  {
    SetAfterSubmissions(subs, s.key);
    forall i | LatestOf(subs, s.key, i)
      ensures (forall j :: i < j < |subs| ==> Cutoff(subs[j].height) <= subs[i].height) <==>
              (forall j :: i < j < |subs| ==> subs[j].height <= subs[i].height + 3)
    {
      assert forall j :: 0 <= j < |subs| ==> subs[j] in subs;
    }
  }

  /** Below height 3 the cutoff wraps around and every check forgets all it knew. */
  lemma LowHeightForgetsAll(subs: seq<Submission>, s: Submission)
    requires s.height < 3 && forall k <- AfterSubmissions(subs) :: AfterSubmissions(subs)[k] < 0x20_0000_0000_0000
    ensures !IsDuplicate(subs, s)
  {
  }
}
