/** The console menus as transition rules: displayMainMenu's switch
    (main.go:94-126), displayNavigationOptions' switch (main.go:334-343) and
    the screens they lead to. */
module Menus {

  /** The four operations the main menu dispatches to. */
  datatype Operation = ListRoomsForTime | CreateReservation | CancelReservation | ViewReservations

  /** What one choice at the main menu does. */
  datatype MainAction = Dispatch(op: Operation) | QuitProgram | InvalidOption

  /** What one choice at the navigation menu does. */
  datatype NavigationAction = BackToMainMenu | QuitFromNavigation | RedisplayNavigation

  /** The screen the session is at. */
  datatype Screen = MainMenu | NavigationMenu | Exited

  /** The number under which the main menu lists an operation. */
  function OperationNumber(op: Operation): (n: int)
    ensures 1 <= n <= 4
  {
    match op
    case ListRoomsForTime => 1
    case CreateReservation => 2
    case CancelReservation => 3
    case ViewReservations => 4
  }

  /** The main menu's switch: 1-4 dispatch to the operation listed under that
      number, 5 quits, anything else is an invalid option. */
  function MainMenuAction(choice: int): (a: MainAction)
    ensures a.Dispatch? <==> 1 <= choice <= 4
    ensures a.Dispatch? ==> OperationNumber(a.op) == choice
    ensures a == QuitProgram <==> choice == 5
    ensures a == InvalidOption <==> !(1 <= choice <= 5)
  {
    if choice == 1 then Dispatch(ListRoomsForTime)
    else if choice == 2 then Dispatch(CreateReservation)
    else if choice == 3 then Dispatch(CancelReservation)
    else if choice == 4 then Dispatch(ViewReservations)
    else if choice == 5 then QuitProgram
    else InvalidOption
  }

  /** Choosing an operation's number dispatches to that operation. */
  lemma MainMenuDispatchesListedOperation(op: Operation)
    ensures MainMenuAction(OperationNumber(op)) == Dispatch(op)
  {
  }

  /** The navigation menu's switch: 1 returns to the main menu, 2 quits,
      anything else redisplays the navigation menu. */
  function NavigationMenuAction(choice: int): (a: NavigationAction)
    ensures a == BackToMainMenu <==> choice == 1
    ensures a == QuitFromNavigation <==> choice == 2
    ensures a == RedisplayNavigation <==> choice != 1 && choice != 2
  {
    if choice == 1 then BackToMainMenu
    else if choice == 2 then QuitFromNavigation
    else RedisplayNavigation
  }

  /** The screen after a main-menu action. Every dispatched operation returns
      to the main loop, except that a reservation that was created goes on to
      the navigation menu (main.go:266). */
  function AfterMainMenu(a: MainAction, created: bool): (s: Screen)
    ensures s == Exited <==> a == QuitProgram
    ensures s == NavigationMenu <==> a == Dispatch(CreateReservation) && created
  {
    match a
    case QuitProgram => Exited
    case InvalidOption => MainMenu
    case Dispatch(op) => if op == CreateReservation && created then NavigationMenu else MainMenu
  }

  /** The screen after a navigation-menu action. */
  function AfterNavigationMenu(a: NavigationAction): (s: Screen)
    ensures s == Exited <==> a == QuitFromNavigation
    ensures s == MainMenu <==> a == BackToMainMenu
  {
    match a
    case BackToMainMenu => MainMenu
    case QuitFromNavigation => Exited
    case RedisplayNavigation => NavigationMenu
  }

  /** The screen reached from one screen by one menu choice, given whether a
      reservation was created when the choice dispatched to creation. */
  function Step(screen: Screen, choice: int, created: bool): Screen
  {
    match screen
    case MainMenu => AfterMainMenu(MainMenuAction(choice), created)
    case NavigationMenu => AfterNavigationMenu(NavigationMenuAction(choice))
    case Exited => Exited
  }

  /** The session ends only by choosing 5 at the main menu or 2 at the
      navigation menu; an invalid choice leaves the screen as it was. */
  lemma StepExitsOnlyByQuit(screen: Screen, choice: int, created: bool)
    requires screen != Exited
    ensures Step(screen, choice, created) == Exited <==>
              (screen == MainMenu && choice == 5) || (screen == NavigationMenu && choice == 2)
    ensures ((screen == MainMenu && !(1 <= choice <= 5)) || (screen == NavigationMenu && choice != 1 && choice != 2))
              ==> Step(screen, choice, created) == screen
  {
  }
}
