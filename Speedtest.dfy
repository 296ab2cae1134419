/**
 * The browser-side Speedtest controller: a small state machine in front of the
 * measuring worker. States used here: 0 = adding settings, 3 = test running,
 * 4 = done (1 and 2 belong to test-point selection, which is not part of this model).
 */
module SpeedtestClient {
  import opened Wrappers

  /** A message posted to a worker; `worker` numbers the workers in the order they were started. */
  datatype Post = Post(worker: nat, message: string)

  /** A call of a page callback: onupdate with the raw worker data, or onend with the aborted flag. */
  datatype Event = Update(data: string) | End(aborted: bool)

  /** A test point as the page describes one. */
  datatype TestPoint = TestPoint(name: string, server: string, dlURL: string,
                                 ulURL: string, pingURL: string, getIpURL: string)

  const SettingsLocked := "You cannot change the test settings after adding server or starting the test"
  const AlreadyRunning := "Test already running"
  const NotStarted := "You cannot abort a test that's not started yet"

  /** The settings value type `V` stands for whatever the page passes to setParameter. */
  class Speedtest<V> {
    var state: int
    var settings: map<string, V>
    var selectedServer: Option<TestPoint>
    /** The last worker message handled; None until the first one arrives. */
    var prevData: Option<string>
    /** Workers started so far; the current worker is number workers - 1. */
    var workers: nat
    /** Whether the 200 ms status poll is installed. */
    var polling: bool
    /** Whether the page has set onupdate / onend. */
    var hasOnUpdate: bool
    var hasOnEnd: bool
    /** Every message posted to a worker, in order. */
    ghost var posted: seq<Post>
    /** Every callback made to the page, in order. */
    ghost var events: seq<Event>

    ghost predicate Valid()
      reads this
    {
      && (state == 0 || state == 3 || state == 4)
      && (polling <==> state == 3)
      && (state == 0 <==> workers == 0)
    }

    constructor ()
      ensures Valid()
      ensures state == 0 && settings == map[] && selectedServer == None
      ensures prevData == None && workers == 0 && !polling
      ensures !hasOnUpdate && !hasOnEnd && posted == [] && events == []
    {
      state := 0;
      settings := map[];
      selectedServer := None;
      prevData := None;
      workers := 0;
      polling := false;
      hasOnUpdate, hasOnEnd := false, false;
      posted, events := [], [];
    }

    /** The current state: one of 0, 3 and 4. */
    function GetState(): (s: int)
      reads this
      requires Valid()
      ensures s == 0 || s == 3 || s == 4
      ensures s == 3 <==> polling
    {
      state
    }

    /** The page assigns or clears its onupdate and onend callbacks. */
    method SetCallbacks(onUpdate: bool, onEnd: bool)
      modifies this`hasOnUpdate, this`hasOnEnd
      ensures hasOnUpdate == onUpdate && hasOnEnd == onEnd
    {
      hasOnUpdate, hasOnEnd := onUpdate, onEnd;
    }

    /** Sets one setting; allowed only while no test point was added and no test started. */
    method SetParameter(parameter: string, value: V) returns (r: Outcome<string>)
      modifies this`settings
      ensures old(state) != 0 ==> r == Fail(SettingsLocked) && settings == old(settings)
      ensures old(state) == 0 ==> r == Pass && settings == old(settings)[parameter := value]
    {
      if state != 0 {
        return Fail(SettingsLocked);
      }
      settings := settings[parameter := value];
      r := Pass;
    }

    /**
     * Starts a test on a new worker: refused while one is running; otherwise the status poll
     * is installed, the state becomes 3 and the worker gets "start " and the serialized settings.
     */
    method Start(serialize: map<string, V> -> string) returns (r: Outcome<string>)
      requires Valid()
      modifies this`state, this`workers, this`polling, this`posted
      ensures Valid()
      ensures old(state) == 3 ==>
        r == Fail(AlreadyRunning) && state == 3 && workers == old(workers) && posted == old(posted)
      ensures old(state) != 3 ==>
        && r == Pass && state == 3 && polling && workers == old(workers) + 1
        && posted == old(posted) + [Post(old(workers), "start " + serialize(settings))]
    {
      if state == 3 {
        return Fail(AlreadyRunning);
      }
      workers := workers + 1;
      polling := true;
      state := 3;
      posted := posted + [Post(workers - 1, "start " + serialize(settings))];
      r := Pass;
    }

    /** One tick of the status poll: while it is installed the current worker is asked for "status". */
    method PollStatus()
      requires Valid()
      modifies this`posted
      ensures polling ==> posted == old(posted) + [Post(workers - 1, "status")]
      ensures !polling ==> posted == old(posted)
    {
      if polling {
        posted := posted + [Post(workers - 1, "status")];
      }
    }

    /**
     * The worker's message handler. A message equal to the previous one is ignored. Otherwise
     * it is remembered, passed to onupdate, and when its test state (given by `testStateOf`)
     * is 4 or more, onend learns whether it is 5 (aborted), the poll stops and the state is 4.
     * Exceptions from the callbacks are caught and do not stop the handler.
     */
    method OnMessage(data: string, testStateOf: string -> int)
      requires Valid() && workers > 0
      modifies this`prevData, this`events, this`state, this`polling
      ensures Valid()
      ensures old(prevData) == Some(data) ==>
        prevData == old(prevData) && events == old(events) && state == old(state) && polling == old(polling)
      ensures old(prevData) != Some(data) ==>
        var finished := testStateOf(data) >= 4;
        && prevData == Some(data)
        && events == old(events) + (if hasOnUpdate then [Update(data)] else [])
                                 + (if finished && hasOnEnd then [End(testStateOf(data) == 5)] else [])
        && (finished ==> state == 4 && !polling)
        && (!finished ==> state == old(state) && polling == old(polling))
    {
      if prevData == Some(data) {
        return;
      }
      prevData := Some(data);
      var testState := testStateOf(data);
      if hasOnUpdate {
        events := events + [Update(data)];
      }
      if testState >= 4 {
        if hasOnEnd {
          events := events + [End(testState == 5)];
        }
        polling := false;
        state := 4;
      }
    }

    /** Aborts a running test: refused in any state below 3, a no-op once it is done. */
    method Abort() returns (r: Outcome<string>)
      requires state == 3 ==> workers > 0
      modifies this`posted
      ensures old(state) < 3 ==> r == Fail(NotStarted) && posted == old(posted)
      ensures old(state) == 3 ==> r == Pass && posted == old(posted) + [Post(workers - 1, "abort")]
      ensures old(state) >= 4 ==> r == Pass && posted == old(posted)
    {
      if state < 3 {
        return Fail(NotStarted);
      }
      if state < 4 {
        posted := posted + [Post(workers - 1, "abort")];
      }
      r := Pass;
    }
  }

  /** Settings can be changed before the start and not after it; a second start is refused. */
  method SettingsThenStart(serialize: map<string, int> -> string)
  {
    var s := new Speedtest<int>();
    var r := s.SetParameter("time_dl_max", 10);
    assert r == Pass && s.settings == map["time_dl_max" := 10];
    r := s.Abort();
    assert r.Fail?;
    r := s.Start(serialize);
    assert r == Pass && s.GetState() == 3;
    assert s.posted == [Post(0, "start " + serialize(map["time_dl_max" := 10]))];
    r := s.SetParameter("time_ul_max", 5);
    assert r.Fail? && s.settings == map["time_dl_max" := 10];
    r := s.Start(serialize);
    assert r.Fail? && s.workers == 1;
  }

  /** A repeated progress message is dropped; the aborted end moves to state 4 and stops polling. */
  method RunAndAbort(serialize: map<string, int> -> string, testStateOf: string -> int,
                     progress: string, aborted: string)
    requires testStateOf(progress) == 1 && testStateOf(aborted) == 5
  {
    var s := new Speedtest<int>();
    s.SetCallbacks(true, true);
    var r := s.Start(serialize);
    s.OnMessage(progress, testStateOf);
    s.OnMessage(progress, testStateOf);
    assert s.events == [Update(progress)] && s.GetState() == 3;
    r := s.Abort();
    assert r == Pass && s.posted[|s.posted| - 1] == Post(0, "abort");
    s.OnMessage(aborted, testStateOf);
    assert s.GetState() == 4 && s.events == [Update(progress), Update(aborted), End(true)];
    var before := s.posted;
    r := s.Abort();
    assert r == Pass && s.posted == before;
    s.PollStatus();
    assert s.posted == before;
  }

  /** After the end a new start is allowed; the remembered last message survives it. */
  method Restart(serialize: map<string, int> -> string, testStateOf: string -> int, done: string)
    requires testStateOf(done) == 4
  {
    var s := new Speedtest<int>();
    var r := s.Start(serialize);
    s.OnMessage(done, testStateOf);
    assert s.GetState() == 4;
    r := s.Start(serialize);
    assert r == Pass && s.GetState() == 3 && s.workers == 2;
    s.OnMessage(done, testStateOf);
    assert s.GetState() == 3;
  }
}
