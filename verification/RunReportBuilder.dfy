/** The loop of `getInstanceRunDetails` and the container it counts in. */
module RunReportBuilder {
  import opened RunReport

  class StartTimeContainer {
    var total: nat
    var lessOneMin: nat
    var oneToThree: nat
    var threeToTen: nat
    var tenToThirty: nat
    var moreThenThirty: nat
    var error: nat

    function Value(): Counts
      reads this
    {
      Counts(total, lessOneMin, oneToThree, threeToTen, tenToThirty, moreThenThirty, error)
    }

    constructor ()
      ensures Value() == EMPTY
    {
      total, lessOneMin, oneToThree, threeToTen, tenToThirty, moreThenThirty, error := 0, 0, 0, 0, 0, 0, 0;
    }

    method Update(startDuration: int)
      modifies this
      ensures Value() == Updated(old(Value()), startDuration)
    {
      total := total + 1;
      if startDuration < MINUTE {
        lessOneMin := lessOneMin + 1;
        return;
      }
      if startDuration < 3 * MINUTE {
        oneToThree := oneToThree + 1;
        return;
      }
      if startDuration < 10 * MINUTE {
        threeToTen := threeToTen + 1;
        return;
      }
      if startDuration < 30 * MINUTE {
        tenToThirty := tenToThirty + 1;
        return;
      }
      moreThenThirty := moreThenThirty + 1;
    }
  }

  /** Each key has a container of its own, with the counts of the report. */
  ghost predicate Shows(result: map<Key, StartTimeContainer>, report: Report)
    reads result.Values
  {
    && result.Keys == report.Keys
    && (forall k :: k in result ==> result[k].Value() == report[k])
    && (forall j, k :: j in result && k in result && j != k ==> result[j] != result[k])
  }

  method CountRecord(result: map<Key, StartTimeContainer>, key: Key, duration: int, ghost report: Report)
    returns (next: map<Key, StartTimeContainer>)
    requires Shows(result, report)
    modifies result.Values
    ensures Shows(next, Added(report, key, duration))
    ensures forall k :: k in next ==> (k in result && next[k] == result[k]) || fresh(next[k])
  {
    next := result;
    if key !in next {
      var units := new StartTimeContainer();
      next := next[key := units];
    }
    var units := next[key];
    units.Update(duration);
  }

  method GetInstanceRunDetails(env: Env, records: seq<Record>) returns (result: map<Key, StartTimeContainer>)
    ensures Shows(result, ReportOf(env, records))
  {
    result := map[];
    var imageAliases: map<string, string> := map[];
    for n := 0 to |records|
      invariant imageAliases == Memo(env, records[..n])
      invariant Shows(result, ReportOf(env, records[..n]))
      invariant forall k :: k in result ==> fresh(result[k])
    {
      var record := records[n];
      ghost var seen := records[..n + 1];
      assert seen[..n] == records[..n] && seen[n] == record;
      if Known(env, record) {
        var memoKey := MemoKey(env, record);
        if memoKey !in imageAliases {
          imageAliases := imageAliases[memoKey := Alias(env, record)];
        }
        MemoHas(env, seen, record);
        result := CountRecord(
          result, KeyFor(env, record, imageAliases[memoKey]), record.startDuration, ReportOf(env, records[..n]));
      }
    }
    assert records[..|records|] == records;
  }
}
