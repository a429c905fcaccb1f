/** The startup banner component (`StartupBanner`) over its hook: the render
    gate, the choice between the default statistics table and an override, the
    optional-chained lookup of the rotating statistic, the icon lookup and the
    order of the close click's callbacks. */
module StartupBanner {
  import opened Wrappers
  import Hook = StartupBannerHook

  /** One entry of the rotating statistics table (`caption` is the source's `label`). */
  datatype Stat = Stat(number: string, caption: string, icon: string, ariaLabel: string)

  /** The default table of the banner configuration. */
  const DefaultStats: seq<Stat> := [
    Stat("1,000+", "Usuarios activos", "Users", "Mil usuarios activos"),
    Stat("30%", "Ahorro promedio", "Euro", "Treinta por ciento de ahorro promedio"),
    Stat("24/7", "Datos en tiempo real", "Clock",
         "Datos disponibles veinticuatro horas siete días a la semana"),
    Stat("100%", "Datos oficiales REE", "Shield",
         "Cien por ciento de datos oficiales de Red Eléctrica de España")
  ]

  /** The icons the banner may draw: the entries of `ICON_MAP`. */
  datatype Icon = Users | Euro | Clock | Shield

  /** The key under which each icon is registered. */
  function IconName(i: Icon): string {
    match i
    case Users => "Users"
    case Euro => "Euro"
    case Clock => "Clock"
    case Shield => "Shield"
  }

  /** `getIcon` as intended: an icon exactly for the four registered names,
      nothing for any other name, "" included. */
  function GetIcon(name: string): (r: Option<Icon>)
    ensures r.Some? <==> name in {"Users", "Euro", "Clock", "Shield"}
    ensures r.Some? ==> IconName(r.value) == name
  {
    if name == "Users" then Some(Users)
    else if name == "Euro" then Some(Euro)
    else if name == "Clock" then Some(Clock)
    else if name == "Shield" then Some(Shield)
    else None
  }

  /** Looking up an icon's own name finds that icon: the map and the names agree. */
  lemma GetIconOfName(i: Icon)
    ensures GetIcon(IconName(i)) == Some(i)
  {
  }

  /** The property names every plain JavaScript object inherits from
      `Object.prototype`; indexing an object literal with one of them yields a
      truthy value even though the literal never defined it. */
  const InheritedNames: set<string> := {
    "constructor", "hasOwnProperty", "isPrototypeOf", "propertyIsEnumerable",
    "toLocaleString", "toString", "valueOf", "__proto__",
    "__defineGetter__", "__defineSetter__", "__lookupGetter__", "__lookupSetter__"
  }

  /** What `ICON_MAP[name]` can give back in the running code. */
  datatype IconLookup = Registered(icon: Icon) | InheritedMember(name: string) | Missing

  /** `getIcon` as written: `ICON_MAP` is an object literal, so a name inherited
      from `Object.prototype` finds a truthy member and `getIcon` returns a
      non-null element built from it instead of null. */
  function GetIconAsWritten(name: string): (r: IconLookup)
    ensures r.Registered? <==> GetIcon(name).Some?
    ensures r.Registered? ==> r.icon == GetIcon(name).value
    ensures r.InheritedMember? <==> name in InheritedNames
  {
    match GetIcon(name)
    case Some(i) => Registered(i)
    case None => if name in InheritedNames then InheritedMember(name) else Missing
  }

  /** The discrepancy: the name "constructor" is not registered, yet the lookup
      as written does not come back empty. */
  lemma InheritedNameEscapesTheMap()
    ensures GetIcon("constructor").None?
    ensures GetIconAsWritten("constructor") != Missing
  {
    assert "constructor" in InheritedNames;
  }

  /** The statistics shown: the override when one is given, else the default
      table. An empty override is still an override (an empty array is truthy). */
  function SelectStats(custom: Option<seq<Stat>>): (stats: seq<Stat>)
    ensures custom.None? ==> stats == DefaultStats && |stats| == Hook.StatCount
    ensures custom.Some? ==> stats == custom.value
  {
    custom.GetOr(DefaultStats)
  }

  /** `stats[currentStat]?.icon || ''`: the icon name, or "" past the end. */
  function IconNameAt(stats: seq<Stat>, i: nat): (name: string)
    ensures i < |stats| ==> name == stats[i].icon
    ensures i >= |stats| ==> name == ""
  {
    match At(stats, i)
    case Some(s) => s.icon
    case None => ""
  }

  /** What the statistics box holds: the entry at the index, if any, and its icon. */
  datatype StatBox = StatBox(stat: Option<Stat>, icon: Option<Icon>)

  /** The banner's output: nothing when dismissed or not yet visible, otherwise
      the box for the current statistic. The icon is drawn through the corrected
      lookup `GetIcon`, so a box has an icon exactly when its entry names one of
      the four registered icons. */
  function View(h: Hook.Hook, custom: Option<seq<Stat>>): (v: Option<StatBox>)
    ensures v.None? <==> h.wasDismissedBefore || !h.isVisible
    ensures v.Some? ==> v.value.stat == At(SelectStats(custom), h.currentStat)
    ensures v.Some? ==> v.value.icon == GetIcon(IconNameAt(SelectStats(custom), h.currentStat))
    ensures v.Some? ==> (v.value.icon.Some? <==>
                         v.value.stat.Some? && v.value.stat.value.icon in {"Users", "Euro", "Clock", "Shield"})
  {
    if h.wasDismissedBefore || !h.isVisible then None
    else
      var stats := SelectStats(custom);
      Some(StatBox(At(stats, h.currentStat), GetIcon(IconNameAt(stats, h.currentStat))))
  }

  /** The render gate is the hook's `Renders`. */
  lemma ViewMatchesHookGate(h: Hook.Hook, custom: Option<seq<Stat>>)
    ensures View(h, custom).Some? <==> Hook.Renders(h)
  {
  }

  /** Every entry of the default table names a registered icon. */
  lemma DefaultIconsRegistered(i: nat)
    requires i < |DefaultStats|
    ensures GetIcon(DefaultStats[i].icon).Some?
  {
  }

  /** With the default table, whatever sequence of events the hook went through,
      a drawn banner always finds its statistic and its icon. */
  lemma DefaultTableAlwaysComplete(stored: bool, events: seq<Hook.Event>)
    ensures var h := Hook.Run(Hook.Initial(stored), events);
      View(h, None).Some? ==> View(h, None).value.stat.Some? && View(h, None).value.icon.Some?
  {
    var h := Hook.Run(Hook.Initial(stored), events);
    Hook.ReachableInv(stored, events);
    if View(h, None).Some? {
      DefaultIconsRegistered(h.currentStat);
    }
  }

  /** With an override shorter than the index, the fields are absent and no icon
      is drawn, rather than the lookup failing. */
  lemma ShortOverrideYieldsAbsentFields(h: Hook.Hook, stats: seq<Stat>)
    requires Hook.Renders(h) && |stats| <= h.currentStat
    ensures View(h, Some(stats)) == Some(StatBox(None, None))
  {
    assert GetIcon("") == None;
  }

  /** The callbacks a close click makes, in order. */
  datatype Callback = HookClose | OnClose

  datatype Click = Click(hook: Hook.Hook, calls: seq<Callback>)

  /** `handleCloseClick`: the hook's `handleClose` first, then `onClose` only
      when the parent passed one. */
  function HandleCloseClick(h: Hook.Hook, hasOnClose: bool): (c: Click)
    ensures |c.calls| >= 1 && c.calls[0] == HookClose
    ensures OnClose in c.calls <==> hasOnClose
    ensures hasOnClose ==> c.calls == [HookClose, OnClose]
    ensures !hasOnClose ==> c.calls == [HookClose]
    ensures !c.hook.isVisible && c.hook.wasDismissedBefore && c.hook.stored
    ensures !Hook.Renders(c.hook)
    ensures c.hook.currentStat == h.currentStat && c.hook.initialized == h.initialized
    ensures c.hook.showTimer == h.showTimer && c.hook.statTimer == h.statTimer
  {
    Click(Hook.Step(h, Hook.Close), if hasOnClose then [HookClose, OnClose] else [HookClose])
  }
}
