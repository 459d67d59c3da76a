/** The sub-HAL: it routes the framework's calls to its sensors by handle. */
module SensorsSubHal {
  import opened Basics
  import opened SamplingSensor

  class SubHal {
    var sensors: map<int, Sensor>
    var nextHandle: int
    var currentOperationMode: Mode
    var callback: Option<nat>  // the proxy that events are posted to

    /** Handles are dense from 1 and every sensor is filed under its own handle. */
    ghost predicate Filed()
      reads this, sensors.Values
    {
      && nextHandle >= 1
      && (forall h :: h in sensors <==> 1 <= h < nextHandle)
      && (forall h :: h in sensors ==> sensors[h].handle == h && DelaysFit(sensors[h].info))
    }

    /** Besides, every sensor runs in the mode the sub-HAL reports. */
    ghost predicate Valid()
      reads this, sensors.Values
    {
      Filed() && forall h :: h in sensors ==> sensors[h].mode == currentOperationMode
    }

    /** Two handles never name one sensor. */
    lemma SensorsAreDistinct(h: int, k: int)
      requires Filed() && h in sensors && k in sensors && h != k
      ensures sensors[h] != sensors[k]
    {
      assert sensors[h].handle == h && sensors[k].handle == k;
    }

    /** A call that reached one sensor left the others alone. */
    twostate lemma OnlyOneChanged(h: int)
      requires old(Filed()) && sensors == old(sensors) && h in sensors
      requires forall k :: k in sensors && sensors[k] != sensors[h] ==> sensors[k].Look() == old(sensors[k].Look())
      ensures Views() == old(Views())[h := sensors[h].Look()]
    {
      forall k | k in sensors && k != h
        ensures sensors[k].Look() == old(sensors[k].Look())
      {
        assert old(sensors[k].handle) == k && old(sensors[h].handle) == h;
      }
      assert Views().Keys == old(Views()).Keys;
    }

    ghost function Views(): map<int, View>
      reads this, sensors.Values
    {
      map h | h in sensors :: sensors[h].Look()
    }

    constructor (infos: seq<Info>)
      requires forall i :: 0 <= i < |infos| ==> DelaysFit(infos[i])
      ensures Valid() && nextHandle == |infos| + 1 && currentOperationMode == Normal && callback == None
      ensures forall h :: h in sensors ==> fresh(sensors[h])
      ensures Views() == FreshViews(infos, |infos|)
      ensures forall h :: h in Views() <==> 1 <= h <= |infos|
      ensures forall h :: h in Views() ==> Views()[h] == View(h, infos[h - 1], false, Normal, 0, 0, [])
    {
      sensors, nextHandle, currentOperationMode, callback := map[], 1, Normal, None;
      new;
      var i := 0;
      while i < |infos|
        invariant i <= |infos| && nextHandle == i + 1 && Valid() && currentOperationMode == Normal && callback == None
        invariant forall h :: h in sensors ==> fresh(sensors[h])
        invariant Views() == FreshViews(infos, i)
        modifies this
      {
        AddSensor(infos[i]);
        i := i + 1;
      }
      FreshViewsAreOff(infos, |infos|);
    }

    method AddSensor(info: Info)
      requires Valid() && DelaysFit(info) && currentOperationMode == Normal
      modifies this`sensors, this`nextHandle
      ensures Valid() && nextHandle == old(nextHandle) + 1
      ensures forall h :: h in old(sensors) ==> h in sensors && sensors[h] == old(sensors[h])
      ensures old(nextHandle) in sensors && fresh(sensors[old(nextHandle)])
      ensures Views() == old(Views())[old(nextHandle) := View(old(nextHandle), info, false, Normal, 0, 0, [])]
    {
      var sensor := new Sensor(nextHandle, info);
      nextHandle := nextHandle + 1;
      sensors := sensors[sensor.handle := sensor];
    }

    method SwitchOne(h: int, mode: Mode)
      requires Filed() && h in sensors
      modifies sensors.Values
      ensures Filed()
      ensures Views() == old(Views())[h := old(Views())[h].(mode := mode)]
    {
      sensors[h].SetOperationMode(mode);
      OnlyOneChanged(h);
    }

    method SwitchAll(mode: Mode)
      requires Filed()
      modifies sensors.Values
      ensures Filed() && Views() == Switched(old(Views()), nextHandle, mode)
    {
      ghost var before := Views();
      var h := 1;
      while h < nextHandle
        invariant 1 <= h <= nextHandle && Filed()
        invariant Views() == Switched(before, h, mode)
      {
        SwitchedNext(before, h, mode);
        SwitchOne(h, mode);
        h := h + 1;
      }
    }

    /** Every sensor changes mode, then the sub-HAL reports the new one. */
    method SetOperationMode(mode: Mode) returns (r: Result)
      requires Valid()
      modifies this`currentOperationMode, sensors.Values
      ensures Valid() && r == Ok && currentOperationMode == mode
      ensures Views().Keys == old(Views()).Keys
      ensures forall h :: h in Views() ==> Views()[h] == old(Views())[h].(mode := mode)
    {
      SwitchAll(mode);
      currentOperationMode := mode;
      forall h | h in sensors
        ensures sensors[h].mode == mode && Views()[h] == old(Views())[h].(mode := mode)
      {
        assert h in Views() && Views()[h] == sensors[h].Look();
        assert h in old(Views());
        assert Views()[h] == Switched(old(Views()), nextHandle, mode)[h];
      }
      r := Ok;
    }

    method Initialize(proxy: nat) returns (r: Result)
      requires Valid()
      modifies this`callback, this`currentOperationMode, sensors.Values
      ensures Valid() && r == Ok && currentOperationMode == Normal && callback == Some(proxy)
      ensures Views().Keys == old(Views()).Keys
      ensures forall h :: h in Views() ==> Views()[h] == old(Views())[h].(mode := Normal)
    {
      callback := Some(proxy);
      var _ := SetOperationMode(Normal);
      r := Ok;
    }

    method Activate(handle: int, enabled: bool) returns (r: Result)
      requires Valid()
      modifies sensors.Values
      ensures Valid()
      ensures handle !in sensors ==> r == BadValue && Views() == old(Views())
      ensures handle in sensors ==>
                r == Ok && Views() == old(Views())[handle := old(Views())[handle].(enabled := enabled)]
    {
      if handle !in sensors { return BadValue; }
      sensors[handle].Activate(enabled);
      OnlyOneChanged(handle);
      r := Ok;
    }

    /** The period is narrowed on its way to the sensor. */
    method Batch(handle: int, period: int64) returns (r: Result)
      requires Valid()
      modifies sensors.Values
      ensures Valid()
      ensures handle !in sensors ==> r == BadValue && Views() == old(Views())
      ensures handle in sensors ==>
                var was := old(Views())[handle];
                && r == Ok
                && (was.info.kind.OneShot? ==> Views() == old(Views()))
                && (was.info.kind.Continuous? ==>
                      var lowest, highest := was.info.minDelay as int * 1000, was.info.maxDelay as int * 1000;
                      var stored := Clamp(Narrow(period) as int, lowest, highest);
                      && InInt64(stored)
                      && Views() == old(Views())[handle := was.(period := stored as int64)])
    {
      if handle !in sensors { return BadValue; }
      sensors[handle].Batch(Narrow(period));
      OnlyOneChanged(handle);
      r := Ok;
    }

    method Flush(handle: int) returns (r: Result)
      requires Valid()
      modifies sensors.Values
      ensures Valid()
      ensures handle !in sensors ==> r == BadValue && Views() == old(Views())
      ensures handle in sensors ==>
                var was := old(Views())[handle];
                if was.info.kind.Continuous? && was.enabled
                then r == Ok && Views() == old(Views())[handle := was.(posted := was.posted + [FlushComplete])]
                else r == BadValue && Views() == old(Views())
    {
      if handle !in sensors { return BadValue; }
      r := sensors[handle].Flush();
      OnlyOneChanged(handle);
    }

    method InjectSensorData(handle: int, kind: EventKind) returns (r: Result)
      requires Valid()
      modifies sensors.Values
      ensures Valid()
      ensures handle !in sensors ==> r == BadValue && Views() == old(Views())
      ensures handle in sensors ==>
                var was := old(Views())[handle];
                if !kind.AdditionalInfo? && was.info.injectable && old(currentOperationMode) == DataInjection
                then r == Ok && Views() == old(Views())[handle := was.(posted := was.posted + [kind])]
                else Views() == old(Views())
                     && r == if kind.AdditionalInfo? then Ok
                             else if was.info.injectable then BadValue else InvalidOperation
    {
      if handle !in sensors { return BadValue; }
      r := sensors[handle].InjectEvent(kind);
      OnlyOneChanged(handle);
    }
  }

  function Fresh(handle: int, info: Info): View { View(handle, info, false, Normal, 0, 0, []) }

  /** The sensors with handles below h have changed mode. */
  function Switched(views: map<int, View>, h: int, mode: Mode): map<int, View> {
    map k | k in views :: if k < h then views[k].(mode := mode) else views[k]
  }

  lemma SwitchedNext(views: map<int, View>, h: int, mode: Mode)
    requires h in views
    ensures h in Switched(views, h, mode) && Switched(views, h, mode)[h] == views[h]
    ensures Switched(views, h, mode)[h := views[h].(mode := mode)] == Switched(views, h + 1, mode)
  {
  }

  /** The sensors as construction files them, handles counting from 1. */
  function FreshViews(infos: seq<Info>, n: nat): map<int, View>
    requires n <= |infos|
  {
    if n == 0 then map[] else FreshViews(infos, n - 1)[n := Fresh(n, infos[n - 1])]
  }

  lemma {:induction false} FreshViewsAreOff(infos: seq<Info>, n: nat)
    requires n <= |infos|
    ensures forall h :: h in FreshViews(infos, n) <==> 1 <= h <= n
    ensures forall h :: h in FreshViews(infos, n) ==>
              FreshViews(infos, n)[h] == View(h, infos[h - 1], false, Normal, 0, 0, [])
  {
    if n > 0 { FreshViewsAreOff(infos, n - 1); }
  }
}
