/** The base activity of Android activities written in JavaScript: the source check and
    the intent flags read at creation, and the options menu built from the activity's
    `menu` property. */
module Activity {
  import opened Wrappers

  /** The intent that started the activity: its data string and its boolean and integer extras. */
  datatype Intent = Intent(dataString: Option<string>, booleanExtras: map<string, bool>,
                           hasMessenger: bool, intExtras: map<string, int>)

  /** The window flags read from the intent, with the message id to report back to the
      messenger when the intent carries one. */
  datatype IntentFlags = IntentFlags(fullscreen: bool, navbar: bool, modal: bool, vertical: bool,
                                     messageId: Option<int>)

  /** The window features requested while creating the activity. */
  datatype WindowFeature = LeftIcon | RightIcon | Progress | IndeterminateProgress | NoTitle

  /** How the window was set up: nothing for a modal activity (not supported), otherwise the
      fullscreen flag and the requested features. */
  datatype WindowSetup = ModalUnsupported | WindowSettings(fullscreen: bool, features: seq<WindowFeature>)

  /** A menu item proxy: its identity and its `title` and `icon` properties. */
  datatype MenuItemProxy = MenuItemProxy(id: nat, title: Option<string>, icon: Option<string>)

  /** The activity proxy's `menu` property: absent, or present with a menu (null or a menu proxy
      given by its items). */
  datatype MenuProperty = NoMenuProperty | MenuPropertyValue(menu: Option<seq<MenuItemProxy>>)

  /** An entry of the native options menu. */
  datatype NativeMenuItem = NativeMenuItem(itemId: int, title: string)

  const DefaultFlags: IntentFlags := IntentFlags(false, true, false, false, None)

  /** A boolean extra, or `default` when the intent does not carry it. */
  function BooleanExtra(intent: Intent, key: string, default: bool): bool {
    if key in intent.booleanExtras then intent.booleanExtras[key] else default
  }

  /** The flags onCreate reads: fullscreen, modal and vertical default to false and navbar to
      true; each changes only when its extra is present, navbar being the negation of
      `navBarHidden`. With a messenger the message id defaults to -1. */
  function IntentFlagsOf(intent: Option<Intent>): (r: IntentFlags)
    ensures intent.None? ==> r == DefaultFlags
    ensures intent.Some? ==>
              r.fullscreen == ("fullscreen" in intent.value.booleanExtras && intent.value.booleanExtras["fullscreen"])
              && r.modal == ("modal" in intent.value.booleanExtras && intent.value.booleanExtras["modal"])
              && r.vertical == ("vertical" in intent.value.booleanExtras && intent.value.booleanExtras["vertical"])
              && r.navbar == !("navBarHidden" in intent.value.booleanExtras && intent.value.booleanExtras["navBarHidden"])
    ensures r.messageId.Some? <==> intent.Some? && intent.value.hasMessenger
  {
    match intent
    case None => DefaultFlags
    case Some(i) =>
      IntentFlags(BooleanExtra(i, "fullscreen", false), !BooleanExtra(i, "navBarHidden", false),
                  BooleanExtra(i, "modal", false), BooleanExtra(i, "vertical", false),
                  if i.hasMessenger then Some(if "messageId" in i.intExtras then i.intExtras["messageId"] else -1)
                  else None)
  }

  /** An intent without extras leaves every flag at its default. */
  lemma NoExtrasDefaults(dataString: Option<string>)
    ensures IntentFlagsOf(Some(Intent(dataString, map[], false, map[]))) == DefaultFlags
  {
  }

  /** The window setup for the flags: nothing when modal; otherwise the fullscreen flag and
      either the title-bar icons and progress features or no title. */
  function WindowSetupFor(flags: IntentFlags): (r: WindowSetup)
    ensures flags.modal <==> r.ModalUnsupported?
    ensures !flags.modal ==> r.fullscreen == flags.fullscreen
    ensures !flags.modal ==> (NoTitle in r.features <==> !flags.navbar)
  {
    if flags.modal then ModalUnsupported
    else WindowSettings(flags.fullscreen,
                        if flags.navbar then [LeftIcon, RightIcon, Progress, IndeterminateProgress] else [NoTitle])
  }

  /** The titled items of a menu, in menu order (see TitledItemsSnoc). */
  function TitledItems(items: seq<MenuItemProxy>): (r: seq<MenuItemProxy>)
    ensures |r| <= |items|
    ensures forall k :: 0 <= k < |r| ==> r[k].title.Some? && r[k] in items
    ensures forall x :: x in items && x.title.Some? ==> x in r
  {
    if |items| == 0 then []
    else
      var init := items[..|items| - 1];
      var x := items[|items| - 1];
      assert items == init + [x];
      TitledItems(init) + (if x.title.Some? then [x] else [])
  }

  /** Appending an item to the menu appends it to the titled items when it has a title and
      leaves them unchanged otherwise; with `TitledItems([]) == []` this fixes the titled items
      and their menu order. */
  lemma {:induction false} TitledItemsSnoc(items: seq<MenuItemProxy>, x: MenuItemProxy)
    ensures TitledItems([]) == []
    ensures TitledItems(items + [x]) == TitledItems(items) + (if x.title.Some? then [x] else [])
  {
    assert (items + [x])[..|items|] == items;
  }

  /** The id map onPrepareOptionsMenu builds: the titled items numbered 0, 1, 2, ... */
  function IdMap(items: seq<MenuItemProxy>): map<int, MenuItemProxy> {
    var titled := TitledItems(items);
    map k | 0 <= k < |titled| :: titled[k]
  }

  /** The native menu entries: one per titled item, with its id and title. */
  function NativeEntries(items: seq<MenuItemProxy>): seq<NativeMenuItem> {
    var titled := TitledItems(items);
    seq(|titled|, k requires 0 <= k < |titled| => NativeMenuItem(k, titled[k].title.value))
  }

  /** An id is mapped exactly when it is below the number of titled items, and it maps to the
      titled item of that rank; an item without a title gets no id. */
  lemma IdMapKeys(items: seq<MenuItemProxy>)
    ensures forall k :: k in IdMap(items) <==> 0 <= k < |TitledItems(items)|
    ensures forall k :: k in IdMap(items) ==> IdMap(items)[k] == TitledItems(items)[k]
    ensures forall k :: k in IdMap(items) ==> IdMap(items)[k].title.Some?
  {
  }

  /** Items without a title do not change the ids of the others. */
  lemma {:induction false} UntitledItemsIgnored(items: seq<MenuItemProxy>, x: MenuItemProxy)
    requires x.title.None?
    ensures IdMap(items + [x]) == IdMap(items)
  {
    assert (items + [x])[..|items|] == items;
  }

  /** A titled item appended to the menu gets the next id. */
  lemma TitledItemGetsNextId(items: seq<MenuItemProxy>, x: MenuItemProxy)
    requires x.title.Some?
    ensures IdMap(items + [x]) == IdMap(items)[|TitledItems(items)| := x]
  {
    TitledItemsSnoc(items, x);
    RankMapSnoc(TitledItems(items), x);
  }

  /** Numbering a list extended by `x` numbers `x` after the others. */
  lemma RankMapSnoc(t: seq<MenuItemProxy>, x: MenuItemProxy)
    ensures (map k | 0 <= k < |t + [x]| :: (t + [x])[k]) == (map k | 0 <= k < |t| :: t[k])[|t| := x]
  {
    var m1, m2 := (map k | 0 <= k < |t + [x]| :: (t + [x])[k]), (map k | 0 <= k < |t| :: t[k])[|t| := x];
    assert forall k :: k in m1 <==> k in m2;
    assert forall k :: k in m1 ==> m1[k] == m2[k];
  }

  /** Reads the window flags from the intent, starting from the defaults. */
  method ReadIntentFlags(intent: Option<Intent>) returns (f: IntentFlags)
    ensures f == IntentFlagsOf(intent)
  {
    f := DefaultFlags;
    if intent.Some? {
      var i := intent.value;
      if "modal" in i.booleanExtras {
        f := f.(modal := i.booleanExtras["modal"]);
      }
      if "fullscreen" in i.booleanExtras {
        f := f.(fullscreen := i.booleanExtras["fullscreen"]);
      }
      if "navBarHidden" in i.booleanExtras {
        f := f.(navbar := !i.booleanExtras["navBarHidden"]);
      }
      if i.hasMessenger {
        f := f.(messageId := Some(if "messageId" in i.intExtras then i.intExtras["messageId"] else -1));
      }
      if "vertical" in i.booleanExtras {
        f := f.(vertical := i.booleanExtras["vertical"]);
      }
    }
  }

  /** A titled item appended to the menu adds one native entry with the next id. */
  lemma NativeEntriesSnoc(items: seq<MenuItemProxy>, x: MenuItemProxy)
    ensures NativeEntries(items + [x]) == NativeEntries(items)
              + (if x.title.Some? then [NativeMenuItem(|TitledItems(items)|, x.title.value)] else [])
  {
    assert (items + [x])[..|items|] == items;
  }

  /** The loop of onPrepareOptionsMenu: one native entry per titled item, numbered from 0,
      and the id map from those numbers to the items. */
  method BuildMenu(menuItems: seq<MenuItemProxy>) returns (m: map<int, MenuItemProxy>, entries: seq<NativeMenuItem>)
    ensures m == IdMap(menuItems) && entries == NativeEntries(menuItems)
  {
    m := map[];
    entries := [];
    var id := 0;
    var k := 0;
    while k < |menuItems|
      invariant 0 <= k <= |menuItems|
      invariant id == |TitledItems(menuItems[..k])|
      invariant m == IdMap(menuItems[..k])
      invariant entries == NativeEntries(menuItems[..k])
    {
      var mip := menuItems[k];
      assert menuItems[..k + 1] == menuItems[..k] + [mip];
      if mip.title.Some? {
        TitledItemGetsNextId(menuItems[..k], mip);
        NativeEntriesSnoc(menuItems[..k], mip);
        entries := entries + [NativeMenuItem(id, mip.title.value)];
        m := m[id := mip];
        id := id + 1;
      } else {
        UntitledItemsIgnored(menuItems[..k], mip);
        NativeEntriesSnoc(menuItems[..k], mip);
      }
      k := k + 1;
    }
    assert menuItems[..k] == menuItems;
  }

  class TiBaseActivity {
    var activitySource: Option<string>
    /** Menu item proxies by native menu item id; null until the activity is created. */
    var itemMap: Option<map<int, MenuItemProxy>>
    /** The activity proxy's `menu` property. */
    var menuProperty: MenuProperty
    /** The flags read from the intent and the window setup, once created. */
    var flags: IntentFlags
    var window: WindowSetup
    /** The orientation the content layout is built with. */
    var layoutVertical: bool

    constructor (activitySource: Option<string>, menuProperty: MenuProperty)
      ensures this.activitySource == activitySource && this.menuProperty == menuProperty
      ensures itemMap.None?
    {
      this.activitySource := activitySource;
      this.menuProperty := menuProperty;
      itemMap := None;
      flags := DefaultFlags;
      window := WindowSettings(false, []);
      layoutVertical := false;
    }

    /** Adopts the intent's data string when no source was given (failing when there is none),
        starts an empty id map, reads the flags and sets the window up. The content layout is
        finally rebuilt non-vertical whatever the `vertical` extra says. */
    method OnCreate(intent: Option<Intent>) returns (r: Result<WindowSetup>)
      modifies this
      ensures old(activitySource).None? && (intent.None? || intent.value.dataString.None?) ==>
                r == Failure(IllegalStateException("activitySource required."))
                && activitySource.None? && itemMap == old(itemMap)
                && flags == old(flags) && window == old(window) && layoutVertical == old(layoutVertical)
      ensures old(activitySource).Some? ==> activitySource == old(activitySource)
      ensures old(activitySource).None? && intent.Some? && intent.value.dataString.Some? ==>
                activitySource == intent.value.dataString
      ensures r.Success? <==> activitySource.Some?
      ensures r.Success? ==> itemMap == Some(map[]) && flags == IntentFlagsOf(intent)
                             && r.value == WindowSetupFor(flags) && window == r.value && !layoutVertical
      ensures menuProperty == old(menuProperty)
    {
      if activitySource.None? {
        if intent.Some? && intent.value.dataString.Some? {
          activitySource := intent.value.dataString;
        } else {
          return Failure(IllegalStateException("activitySource required."));
        }
      }
      itemMap := Some(map[]);
      var f := ReadIntentFlags(intent);
      flags := f;
      layoutVertical := f.vertical;
      if f.modal {
        window := ModalUnsupported;
      } else {
        var features := if f.navbar then [LeftIcon, RightIcon, Progress, IndeterminateProgress] else [NoTitle];
        window := WindowSettings(f.fullscreen, features);
      }
      layoutVertical := false;
      r := Success(window);
    }

    /** Whether the activity proxy has a `menu` property. */
    function OnCreateOptionsMenu(): (r: bool)
      reads this
      ensures r <==> !menuProperty.NoMenuProperty?
    {
      menuProperty.MenuPropertyValue?
    }

    /** Clears the native menu and, when the activity has a menu, adds one entry per titled
        item with ids 0, 1, 2, ... and replaces the id map with exactly those ids. */
    method OnPrepareOptionsMenu() returns (r: bool, entries: seq<NativeMenuItem>)
      modifies this
      ensures r <==> menuProperty.MenuPropertyValue? && menuProperty.menu.Some?
      ensures !r ==> entries == [] && itemMap == old(itemMap)
      ensures r ==> itemMap == Some(IdMap(menuProperty.menu.value))
                    && entries == NativeEntries(menuProperty.menu.value)
      ensures activitySource == old(activitySource) && menuProperty == old(menuProperty)
      ensures flags == old(flags) && window == old(window) && layoutVertical == old(layoutVertical)
    {
      entries := [];
      if !(menuProperty.MenuPropertyValue? && menuProperty.menu.Some?) {
        return false, entries;
      }
      var m;
      m, entries := BuildMenu(menuProperty.menu.value);
      itemMap := Some(m);
      r := true;
    }

    /** Fires `click` on the item mapped to the selected id and reports it handled; an
        unmapped id is not handled. */
    method OnOptionsItemSelected(itemId: int) returns (r: Result<bool>, clicked: Option<MenuItemProxy>)
      ensures itemMap.None? ==> r == Failure(NullPointerException) && clicked.None?
      ensures itemMap.Some? ==> r == Success(itemId in itemMap.value)
      ensures itemMap.Some? && itemId in itemMap.value ==> clicked == Some(itemMap.value[itemId])
      ensures itemMap.Some? && itemId !in itemMap.value ==> clicked.None?
    {
      if itemMap.None? {
        return Failure(NullPointerException), None;
      }
      if itemId in itemMap.value {
        clicked := Some(itemMap.value[itemId]);
        r := Success(true);
      } else {
        clicked := None;
        r := Success(false);
      }
    }
  }
}
