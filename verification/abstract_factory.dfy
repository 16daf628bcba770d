/** The abstract factory pattern: dialog boxes and menus come in a Windows
    and a MacOS family, and `UserInterfaceFactory` builds both kinds of
    widget for the one operating system it is set to. */
module AbstractFactory {
  import opened Ints

  /** `OS_TYPE`. */
  datatype OsType = NONE | WINDOWS | MAC

  /** The numeric value of each `OS_TYPE` enumerator. */
  function Ordinal(os: OsType): (n: int32)
    ensures os == NONE <==> n == 0
    ensures os == WINDOWS <==> n == 1
    ensures os == MAC <==> n == 2
  {
    match os
    case NONE => 0
    case WINDOWS => 1
    case MAC => 2
  }

  /** A product family. */
  datatype Family = Windows | MacOS

  /** `WindowsDialogBox` / `MacOSDialogBox` with their button count. */
  datatype DialogBox = DialogBox(family: Family, numButtons: int32)

  /** `WindowsMenu` / `MacOSMenu` with their option count. */
  datatype Menu = Menu(family: Family, numMenuOptions: int32)

  /** Both factories reach the end of a non-void function without returning
      for `NONE`, which is undefined behaviour; they are only defined for a
      real operating system. */
  predicate Supported(os: OsType)
  {
    os != NONE
  }

  /** The family that builds widgets for `os`. */
  function FamilyOf(os: OsType): Family
    requires Supported(os)
  {
    if os == WINDOWS then Windows else MacOS
  }

  /** The operating system a family is built for: the reference inverse of
      `FamilyOf`. */
  function OsOf(f: Family): (os: OsType)
    ensures Supported(os)
  {
    match f
    case Windows => WINDOWS
    case MacOS => MAC
  }

  /** Families and supported operating systems correspond one to one. */
  lemma FamilyRoundTrip(os: OsType, f: Family)
    ensures Supported(os) ==> OsOf(FamilyOf(os)) == os
    ensures FamilyOf(OsOf(f)) == f
  {
  }

  /** `DialogBoxFactory::createDialogBox`. */
  function CreateDialogBox(os: OsType, numButtons: int32): (d: DialogBox)
    requires Supported(os)
    ensures os == WINDOWS <==> d.family == Windows
    ensures os == MAC <==> d.family == MacOS
    ensures d.numButtons == numButtons
  {
    if os == WINDOWS then DialogBox(Windows, numButtons) else DialogBox(MacOS, numButtons)
  }

  /** `MenuFactory::createMenu`. */
  function CreateMenu(os: OsType, numOptions: int32): (m: Menu)
    requires Supported(os)
    ensures os == WINDOWS <==> m.family == Windows
    ensures os == MAC <==> m.family == MacOS
    ensures m.numMenuOptions == numOptions
  {
    if os == WINDOWS then Menu(Windows, numOptions) else Menu(MacOS, numOptions)
  }

  /** `UserInterfaceFactory`: the stored operating system. Its two member
      factories hold no state and are left implicit. */
  datatype UserInterfaceFactory = UserInterfaceFactory(osType: OsType)

  /** `UserInterfaceFactory::createDialogbox`: delegate with the stored OS. */
  function UiCreateDialogBox(u: UserInterfaceFactory, numButtons: int32): (d: DialogBox)
    requires Supported(u.osType)
    ensures d.family == FamilyOf(u.osType)
    ensures d.numButtons == numButtons
  {
    CreateDialogBox(u.osType, numButtons)
  }

  /** `UserInterfaceFactory::createMenu`: delegate with the stored OS. */
  function UiCreateMenu(u: UserInterfaceFactory, numOptions: int32): (m: Menu)
    requires Supported(u.osType)
    ensures m.family == FamilyOf(u.osType)
    ensures m.numMenuOptions == numOptions
  {
    CreateMenu(u.osType, numOptions)
  }

  /** `UserInterfaceFactory::setOSType`: replace the stored OS; the factory
      then builds that OS's family. */
  function SetOsType(u: UserInterfaceFactory, os: OsType): (r: UserInterfaceFactory)
    ensures r.osType == os
    ensures Supported(os) ==> forall n: int32 :: UiCreateDialogBox(r, n).family == FamilyOf(os)
  {
    u.(osType := os)
  }

  /** A dialog box and a menu built by the same factory, with no `setOSType`
      in between, always belong to the same family. */
  lemma WidgetsMatch(u: UserInterfaceFactory, numButtons: int32, numOptions: int32)
    requires Supported(u.osType)
    ensures UiCreateDialogBox(u, numButtons).family == UiCreateMenu(u, numOptions).family
    ensures OsOf(UiCreateDialogBox(u, numButtons).family) == u.osType
  {
  }
}
