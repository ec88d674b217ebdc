/** `DoMemoryService`: an array of samples overwritten in place. */
module MemoryService {
  import opened Sampler
  import opened Wrappers
  import opened Numbers

  class MemoryInfo {
    var timestamp: int
    var reading: int

    constructor (s: Sample)
      ensures timestamp == s.timestamp && reading == s.reading
    {
      timestamp, reading := s.timestamp, s.reading;
    }

    method Set(s: Sample)
      modifies this
      ensures timestamp == s.timestamp && reading == s.reading
    {
      timestamp, reading := s.timestamp, s.reading;
    }
  }

  function Samples(infos: seq<MemoryInfo>): (s: seq<Sample>)
    reads infos
    ensures |s| == |infos|
    ensures forall i :: 0 <= i < |s| ==> s[i] == Sample(infos[i].timestamp, infos[i].reading)
  {
    if infos == [] then [] else [Sample(infos[0].timestamp, infos[0].reading)] + Samples(infos[1..])
  }

  /** The slots at the given positions. */
  method At(list: array<MemoryInfo>, order: seq<nat>) returns (r: seq<MemoryInfo>)
    requires forall k :: 0 <= k < |order| ==> order[k] < list.Length
    ensures |r| == |order| && forall k :: 0 <= k < |r| ==> r[k] == list[order[k]]
  {
    r := [];
    for k := 0 to |order|
      invariant |r| == k && forall j :: 0 <= j < k ==> r[j] == list[order[j]]
    {
      r := r + [list[order[k]]];
    }
  }

  class Service {
    const checkTime: int
    const storeTime: int
    var list: array?<MemoryInfo>

    predicate Ready()
      reads this, list
    {
      list != null && list.Length > 0 && forall i, j :: 0 <= i < j < list.Length ==> list[i] != list[j]
    }

    ghost function Slots(): seq<Sample>
      requires list != null
      reads this, list, if list == null then {} else set i | 0 <= i < list.Length :: list[i]
    {
      Samples(list[..])
    }

    constructor (checkTime: int, storeTime: int)
      ensures this.checkTime == checkTime && this.storeTime == storeTime && list == null
    {
      this.checkTime, this.storeTime, list := checkTime, storeTime, null;
    }

    /** Every slot gets a sample at once; the last one remembers the start. */
    method AfterPropertiesSet(fill: seq<Sample>)
      requires checkTime > 0 && storeTime >= 0 && |fill| == storeTime / checkTime + 1
      modifies this
      ensures Ready() && fresh(list) && Slots() == fill
    {
      var count := storeTime / checkTime + 1;
      var infos: seq<MemoryInfo> := [];
      for i := 0 to count
        invariant |infos| == i
        invariant forall j :: 0 <= j < i ==>
          fresh(infos[j]) && infos[j].timestamp == fill[j].timestamp && infos[j].reading == fill[j].reading
        invariant forall j, k :: 0 <= j < k < i ==> infos[j] != infos[k]
      {
        var info := new MemoryInfo(fill[i]);
        infos := infos + [info];
      }
      list := new MemoryInfo[count](i requires 0 <= i < |infos| => infos[i]);
      assert list[..] == infos;
    }

    /** One run of the collector: the oldest sample is overwritten. */
    method Collect(t: Tick)
      requires Ready()
      modifies set i | 0 <= i < list.Length :: list[i]
      ensures Slots() == Step(old(Slots()), t)
    {
      var max := MIN_INT;
      var index := 0;
      for i := 0 to list.Length
        invariant (index, max) == Oldest(Slots(), t.now, i)
        invariant 0 <= index < list.Length
        invariant Slots() == old(Slots())
      {
        var info := list[i];
        assert info == list[..][i];
        var age := ToInt32(t.now - info.timestamp);
        if max < age {
          index, max := i, age;
        }
      }
      ghost var slots := Slots();
      list[index].Set(t.sample);
      assert Slots() == slots[index := t.sample];
    }

    /** None while there is no list, or too short a one. The objects returned are the slots
        themselves, so a later run of the collector shows in them. */
    method GetMemoryInfo(now: int, lastTimeMin: int) returns (r: Option<seq<MemoryInfo>>)
      requires list != null ==> Ready()
      ensures r.None? <==> list == null || list.Length < 3
      ensures r.Some? ==>
        var w := Report(Slots(), now, LowerBound(checkTime), UpperBound(lastTimeMin, storeTime));
        Indexes(Slots(), w) && |r.value| == |w| && forall k :: 0 <= k < |w| ==> r.value[k] == list[w[k]]
    {
      hide LowerBound, UpperBound, SortedNewest, Samples;
      if list == null {
        return None;
      }
      var count := list.Length - 1;
      if count < 2 {
        return None;
      }
      var high := UpperBound(lastTimeMin, storeTime);
      var low := LowerBound(checkTime);
      var chosen: seq<nat> := [];
      for i := 0 to count
        invariant chosen == Window(Slots(), now, low, high, i)
      {
        assert list[i] == list[..][i];
        var age := now - list[i].timestamp;
        if age > low && age < high {
          chosen := chosen + [i];
        }
      }
      var order := SortedNewest(Samples(list[..]), chosen);
      var result := At(list, order);
      r := Some(result);
    }
  }
}
