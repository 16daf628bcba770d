# Design-pattern demos: a Dafny model of their stateful cores

This project models five of the design-pattern demonstrations in
`DesignPatterns/`. It covers only the parts with logic worth stating. Each part
becomes an immutable Dafny datatype plus pure transition functions. Console
output is replaced by an abstract trace of effects.

- **Command** (`command.dfy`): `RemoteControlA` has three buttons A, B and C.
  Each button holds an optional command. The remote also keeps a LIFO history
  of executed commands. There are three commands: `TurnCarOn`, `MoveCarLeft`
  and `LockCarDoors`, each with a forward and an inverse car action. The `Car`
  receiver has no state, so the model records what it does as `Car(action)`
  effects. The remote's "No commands left to unexecute." message is recorded
  as `NoCommandsLeft`.
- **Observer** (`observer.dfy`): `WeatherStationObservable` holds a
  temperature, initially 10, and an observer list in registration order.
  Duplicates are allowed. Each display's `update` calls `getTemperature` on
  the station it was built on, not on the station that notifies it. The
  model assumes these are the same station, so an update carries the
  notifying station's temperature and is recorded as
  `Updated(observer, temperature)`.
  The "still the same" message is recorded as `SameTemperatureNotice`.
- **Proxy** (`proxy.dfy`): `LazyBookParserProxy` caches an optional
  `BookParser`. The parser's expensive constructor and its cheap page count
  are recorded as the effects `ParserConstructed` and `PagesCounted`. The
  source's parser ignores its book text. The model's parser keeps that text
  only to show which string was passed to its constructor.
- **Factory method** (`factory.dfy`): `ObstacleFactory::createObstacle` maps
  a level to an obstacle kind, speed and size.
- **Abstract factory** (`abstract_factory.dfy`): `DialogBoxFactory`,
  `MenuFactory` and `UserInterfaceFactory` map an OS type to a product family.

`common.dfy` holds `Option` (a possibly-null owning pointer), `int32` (the
C++ `int`) and the associativity of sequence concatenation.

The model follows what the code does, including its error and undefined
cases:

- Pressing an unbound button dereferences a null pointer, so `Press` requires
  the button to be bound. The model has no `UnboundSlotError` result.
- Undo on an empty history is not an error value. It only prints a message,
  which the model records as the `NoCommandsLeft` effect.
- `createObstacle` has no defined behaviour outside levels 0..3, and the two
  OS-type factories have none for `NONE`. Each of these is a precondition.

## Model

| member | source | states |
|---|---|---|
| `Command.Execute` | DesignPatterns/Command.h:59-103 | every command's `execute` performs a forward car action: engine on, move left or lock |
| `Command.Unexecute` | DesignPatterns/Command.h:59-103 | every command's `unexecute` performs a non-forward car action, namely the opposite of what its own `execute` does |
| `Command.UnexecuteInvertsExecute` | DesignPatterns/Command.h:55-107 | each command's `unexecute` performs the opposite car action of its `execute` (engine on/off, left/right, lock/unlock), and the two always differ |
| `Command.CommandsAreDistinguishable` | DesignPatterns/Command.h:55-107 | two commands drive the same forward action, or the same inverse action, exactly when they are the same command |
| `Command.Init` | DesignPatterns/Command.h:159-161 | a new remote has every button unbound, an empty history and no effects |
| `Command.SetButton` | DesignPatterns/Command.h:113-126 | binding button X (possibly to null) sets only X; the other buttons, the history and the trace are unchanged |
| `Command.Press` | DesignPatterns/Command.h:128-144 | pressing a bound button appends exactly that command's forward action to the trace and pushes that command, so the history grows by one and no button changes; an unbound button is excluded because the source dereferences null |
| `Command.Undo` | DesignPatterns/Command.h:146-157 | on a non-empty history, undo appends the top command's inverse action and pops exactly that entry, leaving the rest of the history as it was; on an empty history it leaves the history empty and only reports that nothing is left |
| `Command.UndoOnEmptyHistory` | DesignPatterns/Command.h:146-157 | undo with nothing to undo leaves the remote unchanged and produces no car action |
| `Command.PressThenUndo` | DesignPatterns/Command.h:128-152 | pressing a button and then undoing restores the remote exactly and appends `[forward, Opposite(forward)]` |
| `Command.PressAll` | DesignPatterns/Command.h:128-144 | pressing buttons b1..bn pushes their commands in order, appends their forward actions in order, and changes no binding |
| `Command.RepeatedPressPushesCopies` | DesignPatterns/Command.h:128-132 | pressing the same button n times pushes n copies of its command with no deduplication, so the history grows by n |
| `Command.BackwardIsReversed` | DesignPatterns/Command.h:146-152 | the effects of unwinding a stack are the inverse actions taken from the top down: the i-th effect undoes the i-th command from the top |
| `Command.UndoN` | DesignPatterns/Command.h:146-157 | n undos pop the top n entries and report their inverses top-first; beyond the bottom of the stack each further undo only reports that nothing is left |
| `Command.PressesThenUndosUnwind` | DesignPatterns/Command.h:128-161 | LIFO: after presses P1..Pn, n undos report the inverses of Pn..P1 in that order and restore the remote, history included |
| `Command.UndoScenario` | DesignPatterns/Command.h:184-218 | with the demo's wiring (engine on A, left on B, lock on C), pressing A then B and undoing three times gives engine on, left, right, engine off, then the nothing-left notice |
| `Observer.NewStation` | DesignPatterns/Observer.h:55-56 | a new station reads 10 degrees and has no observers |
| `Observer.Add` | DesignPatterns/Observer.h:27 | `add` appends the observer at the end of the list and keeps the earlier entries and the temperature |
| `Observer.DuplicateAddsAreKept` | DesignPatterns/Observer.h:27 | adding the same observer twice keeps both entries |
| `Observer.Remove` | DesignPatterns/Observer.h:28 | `remove` is a stub: the observer list and the temperature are unchanged |
| `Observer.GetTemperature` | DesignPatterns/Observer.h:49-52 | `getTemperature` returns the temperature the station stores |
| `Observer.ReadBackAfterSet` | DesignPatterns/Observer.h:35-55 | `getTemperature` returns the value last passed to `setTemperature`, whether or not that call notified anyone; `add` and `remove` leave it unchanged; a new station reads 10 |
| `Observer.Notify` | DesignPatterns/Observer.h:29-33 | notify produces one update per registration entry, in registration order, each carrying the notifying station's current temperature (see Left out) |
| `Observer.NotifyReachesEachEntry` | DesignPatterns/Observer.h:29-33 | each observer is updated exactly as many times as it is registered, and an unregistered one not at all |
| `Observer.SetTemperature` | DesignPatterns/Observer.h:35-47 | a different value is stored and then every registered observer gets an update carrying the new value, in order; an equal value leaves the station unchanged and only gives the "still the same" notice |
| `Observer.SameTemperatureNotifiesNoOne` | DesignPatterns/Observer.h:37-46 | setting the temperature the station already holds leaves the station unchanged and updates no observer |
| `Observer.SetTemperatureTwice` | DesignPatterns/Observer.h:35-47 | a second identical `setTemperature` changes nothing and notifies nobody |
| `Observer.UpdatesCarryNewTemperature` | DesignPatterns/Observer.h:37-41 | every update produced by a change carries the new temperature, because the value is stored before `notify` runs |
| `Observer.ChangeReachesEachEntry` | DesignPatterns/Observer.h:35-47 | a change of temperature reaches each observer once per registration |
| `Proxy.ParserPages` | DesignPatterns/Proxy.h:42-49 | the parser's page count is always 0 |
| `Proxy.NewProxy` | DesignPatterns/Proxy.h:55 | constructing the proxy stores the book and builds no parser |
| `Proxy.GetNumPages` | DesignPatterns/Proxy.h:57-62 | the first call builds a parser from the stored book and reports it; later calls reuse the cached parser; every call leaves a parser cached, keeps the book, returns 0 and reports one page count |
| `Proxy.ParserBuiltAtMostOnce` | DesignPatterns/Proxy.h:57-66 | over any number of calls the parser is built at most once, exactly once when the proxy started without one; the book never changes and is the one the cached parser was built from |
| `Proxy.FirstCallBuildsSecondReuses` | DesignPatterns/Proxy.h:55-62 | on a fresh proxy the first call builds and counts, the second call only counts, and the parser is built from the proxy's book |
| `Factory.CreateObstacle` | DesignPatterns/Factory.h:68-86 | defined only for levels 0..3; even levels give an Asteroid and odd levels give SpaceDebris; speed and size vectors have equal, positive components |
| `Factory.LevelTable` | DesignPatterns/Factory.h:70-85 | level 0 gives Asteroid (1,1)/(1,1); level 1 gives SpaceDebris (2,2)/(1,1); level 2 gives Asteroid (5,5)/(3,3); level 3 gives SpaceDebris (4,4)/(10,10) |
| `Factory.LevelsAreDistinguishable` | DesignPatterns/Factory.h:70-85 | two levels give the same obstacle exactly when they are the same level |
| `Factory.SizeGrowsWithLevel` | DesignPatterns/Factory.h:70-85 | the size never shrinks as the level rises, in both components; speed does not follow, because level 3 is slower than level 2 |
| `AbstractFactory.Ordinal` | DesignPatterns/AbstractFactory.h:10-15 | `NONE`, `WINDOWS` and `MAC` have the values 0, 1 and 2 |
| `AbstractFactory.FamilyRoundTrip` | DesignPatterns/AbstractFactory.h:80-98 | the supported OS types correspond one-to-one with the product families |
| `AbstractFactory.CreateDialogBox` | DesignPatterns/AbstractFactory.h:80-86 | WINDOWS gives a Windows dialog box and MAC gives a MacOS one; the button count passes through unchanged; `NONE` is excluded |
| `AbstractFactory.CreateMenu` | DesignPatterns/AbstractFactory.h:92-98 | WINDOWS gives a Windows menu and MAC gives a MacOS one; the option count passes through unchanged; `NONE` is excluded |
| `AbstractFactory.UiCreateDialogBox` | DesignPatterns/AbstractFactory.h:105-108 | the dialog box belongs to the family of the stored OS type and keeps the button count |
| `AbstractFactory.UiCreateMenu` | DesignPatterns/AbstractFactory.h:110-113 | the menu belongs to the family of the stored OS type and keeps the option count |
| `AbstractFactory.SetOsType` | DesignPatterns/AbstractFactory.h:115-118 | `setOSType` stores the new OS type, and the factory then builds that type's family |
| `AbstractFactory.WidgetsMatch` | DesignPatterns/AbstractFactory.h:105-121 | a dialog box and a menu built without a `setOSType` in between always come from the same family, the one for the stored OS type |

## Left out

- Console demo routines (`CommandDemo`, `ObserverDemo`, `VirtualProxyDemo`,
  `FactoryDemo`, `AbstractFactoryDemo`) and `main.cpp` are left out. They are
  loops over standard input and output.
- All printing is left out: `printContents`, `printVec2` and the text of each
  message. Only messages that show a behaviour are kept, as abstract effects.
- `RemoteControlB` is left out because it declares no operations.
- Rebinding a button while its old command is still in the history is left
  out. In C++ the history then holds a dangling pointer, and a later undo is
  undefined behaviour. The model keeps command values in the history, so it
  matches the source whenever this does not happen.
- Object identity and lifetimes are left out. This covers the car pointer
  held by each command, `unique_ptr` ownership and `reference_wrapper`
  observers. Observers are values of a type parameter, and the one car is
  implicit.
- Observer.Notify: every registered observer is assumed to be a display built
  on the station that notifies it. Any other `update` body is not modelled,
  including a display built on a different station, which would read that
  station's temperature instead. `Observer.UpdatesCarryNewTemperature` and
  `Observer.ChangeReachesEachEntry` rest on the same assumption.
- Bridge, Strategy, Adapter, Singleton and Facade are left out. Their files
  only forward to print calls, contain no code, or do not compile as written.
