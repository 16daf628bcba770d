/** The observer pattern: a weather station holds a temperature and a list of
    registered observers, and tells every observer when the temperature
    changes. Each display's `update` reads the temperature of the station it
    was built on; the model takes every registered observer to be a display
    built on the station that notifies it, and records its update as an
    `Updated` event carrying that station's temperature. */
module Observer {
  import opened Ints

  /** `WeatherStationObservable`: the temperature and the registration list,
      in registration order. Observers are references in the source, so the
      same observer may appear more than once. */
  datatype Station<O> = Station(temperature: int32, observers: seq<O>)

  /** What the station makes observable: an observer displaying the
      temperature it read, or the station's "still the same" message. */
  datatype Event<O> = Updated(observer: O, temperature: int32) | SameTemperatureNotice

  /** The station after `setTemperature` and the events that call produced. */
  datatype Change<O> = Change(station: Station<O>, events: seq<Event<O>>)

  /** A freshly constructed station: 10 degrees and nobody registered. */
  function NewStation<O>(): (s: Station<O>)
    ensures s.temperature == 10
    ensures s.observers == []
  {
    Station(10, [])
  }

  /** `add`: register `o` at the end of the list, with no duplicate check. */
  function Add<O>(s: Station<O>, o: O): (r: Station<O>)
    ensures r.temperature == s.temperature
    ensures |r.observers| == |s.observers| + 1
    ensures r.observers[..|s.observers|] == s.observers
    ensures r.observers[|s.observers|] == o
  {
    s.(observers := s.observers + [o])
  }

  /** `remove`: a stub in the source, so the station is left as it was. */
  function Remove<O>(s: Station<O>, o: O): (r: Station<O>)
    ensures r.observers == s.observers && r.temperature == s.temperature
  {
    s
  }

  /** `getTemperature`: the temperature the station currently stores. */
  function GetTemperature<O>(s: Station<O>): (t: int32)
    ensures t == s.temperature
  {
    s.temperature
  }

  /** `notify`: one `update` per registration entry, in registration order,
      each reading this station's current temperature (the observer being a
      display built on this station). */
  function Notify<O>(s: Station<O>): (es: seq<Event<O>>)
    ensures |es| == |s.observers|
    ensures forall i :: 0 <= i < |es| ==> es[i] == Updated(s.observers[i], GetTemperature(s))
    decreases |s.observers|
  {
    if s.observers == [] then []
    else [Updated(s.observers[0], s.temperature)] + Notify(s.(observers := s.observers[1..]))
  }

  /** `setTemperature`: a different value is stored first and then every
      observer is notified; an equal value only produces the "still the
      same" message. */
  function SetTemperature<O>(s: Station<O>, t: int32): (c: Change<O>)
    ensures c.station.observers == s.observers
    ensures c.station.temperature == t
    ensures t == s.temperature ==> c.events == [SameTemperatureNotice]
    ensures t != s.temperature ==>
      && |c.events| == |s.observers|
      && forall i :: 0 <= i < |s.observers| ==> c.events[i] == Updated(s.observers[i], t)
  {
    if s.temperature != t then
      var s' := s.(temperature := t);
      Change(s', Notify(s'))
    else
      Change(s, [SameTemperatureNotice])
  }

  /** Setting the temperature the station already holds changes nothing and
      reaches no observer. */
  lemma SameTemperatureNotifiesNoOne<O>(s: Station<O>, t: int32)
    requires t == s.temperature
    ensures SetTemperature(s, t).station == s
    ensures forall e :: e in SetTemperature(s, t).events ==> !e.Updated?
  {
  }

  /** Setting the same temperature twice: the second call finds nothing
      changed, so it leaves the station alone and notifies no observer. */
  lemma SetTemperatureTwice<O>(s: Station<O>, t: int32)
    ensures SetTemperature(SetTemperature(s, t).station, t).station == SetTemperature(s, t).station
    ensures SetTemperature(SetTemperature(s, t).station, t).events == [SameTemperatureNotice]
  {
  }

  /** Every update a change produces carries the new temperature, never the
      old one. */
  lemma UpdatesCarryNewTemperature<O>(s: Station<O>, t: int32)
    ensures forall e :: e in SetTemperature(s, t).events && e.Updated? ==> e.temperature == t
  {
  }

  /** `getTemperature` reads back the last value set, whether or not that
      call notified anyone; registering or "removing" an observer does not
      change what it reads. */
  lemma ReadBackAfterSet<O>(s: Station<O>, t: int32, o: O)
    ensures GetTemperature(SetTemperature(s, t).station) == t
    ensures GetTemperature(Add(s, o)) == GetTemperature(s)
    ensures GetTemperature(Remove(s, o)) == GetTemperature(s)
    ensures GetTemperature(NewStation<O>()) == 10
  {
  }

  /** How many of `es` are updates delivered to `o`. */
  function UpdatesTo<O(==)>(es: seq<Event<O>>, o: O): nat
  {
    if es == [] then 0
    else (if es[0].Updated? && es[0].observer == o then 1 else 0) + UpdatesTo(es[1..], o)
  }

  /** Each observer is updated exactly as many times as it is registered. */
  lemma {:induction false} NotifyReachesEachEntry<O>(s: Station<O>, o: O)
    ensures UpdatesTo(Notify(s), o) == multiset(s.observers)[o]
    decreases |s.observers|
  {
    if s.observers != [] {
      var rest := s.(observers := s.observers[1..]);
      NotifyReachesEachEntry(rest, o);
      assert s.observers == [s.observers[0]] + rest.observers;
      assert Notify(s)[1..] == Notify(rest);
    }
  }

  /** A change of temperature updates each observer once per registration:
      registering twice means being told twice, and an observer that was
      never added hears nothing. */
  lemma ChangeReachesEachEntry<O>(s: Station<O>, t: int32, o: O)
    requires t != s.temperature
    ensures UpdatesTo(SetTemperature(s, t).events, o) == multiset(s.observers)[o]
  {
    NotifyReachesEachEntry(s.(temperature := t), o);
  }

  /** Adding the same observer twice keeps both entries, so the next change
      reaches it two more times than before. */
  lemma DuplicateAddsAreKept<O>(s: Station<O>, o: O)
    ensures Add(Add(s, o), o).observers == s.observers + [o, o]
    ensures multiset(Add(Add(s, o), o).observers)[o] == multiset(s.observers)[o] + 2
  {
    assert Add(Add(s, o), o).observers == s.observers + [o, o];
  }
}
