/** The theme controller of the public site: the mapping from the server's
    `default_theme` setting to a display mode, the reconciliation of that
    mode with the preference kept in `localStorage["theme"]` on load and on
    every poll, and `setThemeMode`, which applies a mode to the body classes,
    the stored preference and the two toggle switches. */
module Theme {
  import opened Common

  datatype Mode = Dark | Light

  /** The string `setThemeMode` stores for a mode. */
  function ModeName(m: Mode): string {
    if m == Dark then "dark" else "light"
  }

  /** The body class that shows a mode. */
  function ModeClass(m: Mode): string {
    if m == Dark then "dark-mode" else "light-mode"
  }

  function Other(m: Mode): Mode {
    if m == Dark then Light else Dark
  }

  /** `data.settings?.default_theme || 'Default Dark'`: a missing or empty
      setting falls back to "Default Dark". */
  function ServerTheme(setting: Option<string>): (r: string)
    ensures Truthy(setting) ==> r == setting.value
    ensures !Truthy(setting) ==> r == "Default Dark"
  {
    if Truthy(setting) then setting.value else "Default Dark"
  }

  /** The server setting mapped to a mode: "Light" is checked first, then
      "Dark", and the fallback is dark. */
  function ServerMode(setting: Option<string>): (r: Mode)
  {
    var theme := ServerTheme(setting);
    if Contains(theme, "Light") then Light
    else if Contains(theme, "Dark") then Dark
    else Dark
  }

  /** The server setting maps to light exactly when it contains the
      case-sensitive substring "Light"; a missing setting maps to dark. */
  lemma ServerModeIsLightIffLight(setting: Option<string>)
    ensures ServerMode(setting) == Light <==> (setting.Some? && Includes(setting.value, "Light"))
    ensures setting == None ==> ServerMode(setting) == Dark
  {
    if !Truthy(setting) {
      DefaultDarkHasNoLight();
      if setting.Some? {
        assert !OccursAt(setting.value, "Light", 0);
      }
    }
  }

  /** "Default Dark" does not contain "Light". */
  lemma DefaultDarkHasNoLight()
    ensures !Includes("Default Dark", "Light")
  {
    var d := "Default Dark";
    forall i | 0 <= i <= |d| - 5 ensures !OccursAt(d, "Light", i) {
      assert d[i..i + 5][0] != 'L';
    }
  }

  /** A setting that contains both words maps to light, because "Light" is
      checked first. */
  lemma {:induction false} LightWinsOverDark(s: string)
    requires Includes(s, "Light") && Includes(s, "Dark")
    ensures ServerMode(Some(s)) == Light
  {
    ServerModeIsLightIffLight(Some(s));
  }

  /** What `initializeTheme` does with a stored preference once it knows the
      server mode. */
  datatype LoadAction =
    | AdoptServer          // no (truthy) stored preference
    | KeepPreference       // the stored preference equals the server mode
    | OverwritePreference  // the stored preference differs: the server wins

  function LoadDecision(saved: Option<string>, server: Mode): (r: LoadAction)
    ensures r == AdoptServer <==> !Truthy(saved)
    ensures r == KeepPreference <==> saved == Some(ModeName(server))
  {
    if Truthy(saved) then
      if saved.value == ModeName(server) then KeepPreference else OverwritePreference
    else AdoptServer
  }

  /** The mode `initializeTheme` applies: in the matching branch it is read
      from the stored string (`savedTheme === 'dark'`), otherwise it is the
      server mode. In every branch it equals the server mode. */
  function LoadedMode(saved: Option<string>, server: Mode): (r: Mode)
    ensures r == server
  {
    match LoadDecision(saved, server)
    case KeepPreference => if saved.value == "dark" then Dark else Light
    case AdoptServer => server
    case OverwritePreference => server
  }

  /** `checkForThemeChanges` acts only when the stored value is not the
      server mode's name (an absent or empty value counts as different). */
  predicate PollChanges(saved: Option<string>, server: Mode) {
    saved != Some(ModeName(server))
  }

  /** The DOMContentLoaded rule: dark when "dark" is stored, or when nothing
      (truthy) is stored and the system prefers dark. */
  function InitialMode(saved: Option<string>, prefersDark: bool): (r: Mode)
    ensures saved == Some("dark") ==> r == Dark
    ensures saved == Some("light") ==> r == Light
    ensures !Truthy(saved) ==> (r == Dark <==> prefersDark)
    ensures Truthy(saved) && saved.value != "dark" ==> r == Light
  {
    if saved == Some("dark") || (!Truthy(saved) && prefersDark) then Dark else Light
  }

  /** A stored mode name wins over the system preference. */
  lemma {:induction false} StoredModeWins(m: Mode, prefersDark: bool)
    ensures InitialMode(Some(ModeName(m)), prefersDark) == m
  {
    if m == Light {
      assert ModeName(m) == "light";
    }
  }

  /** The outcome of the theme request, which the model takes as input. */
  datatype ThemeFetch =
    | Fetched(defaultTheme: Option<string>)  // a 2xx response with its setting
    | NotOk                                  // a non-2xx response
    | Failed                                 // a thrown error (network, JSON)

  /** The theme state of one page: the stored preference, the body's class
      list, and the two toggle switches (None when the element is absent,
      otherwise its `checked` state). */
  class ThemeController {
    var stored: Option<string>
    var bodyClasses: set<string>
    var desktopToggle: Option<bool>
    var mobileToggle: Option<bool>
    var notices: seq<Mode>  // theme-change notifications shown, oldest first

    /** The page shows mode `m`: exactly one of the two mode classes, the
        stored preference names `m`, and every present toggle agrees. */
    ghost predicate Shows(m: Mode)
      reads this
    {
      ModeClass(m) in bodyClasses && ModeClass(Other(m)) !in bodyClasses &&
      stored == Some(ModeName(m)) &&
      (desktopToggle.Some? ==> desktopToggle.value == (m == Dark)) &&
      (mobileToggle.Some? ==> mobileToggle.value == (m == Dark))
    }

    constructor (stored: Option<string>, bodyClasses: set<string>,
                 desktopToggle: Option<bool>, mobileToggle: Option<bool>)
      ensures this.stored == stored && this.bodyClasses == bodyClasses
      ensures this.desktopToggle == desktopToggle && this.mobileToggle == mobileToggle
      ensures notices == []
    {
      this.stored := stored;
      this.bodyClasses := bodyClasses;
      this.desktopToggle := desktopToggle;
      this.mobileToggle := mobileToggle;
      notices := [];
    }

    /** `syncThemeToggles`: every present toggle gets `checked = isDark`. */
    method SyncThemeToggles(isDark: bool)
      modifies this
      ensures desktopToggle == if old(desktopToggle).Some? then Some(isDark) else None
      ensures mobileToggle == if old(mobileToggle).Some? then Some(isDark) else None
      ensures stored == old(stored) && bodyClasses == old(bodyClasses) && notices == old(notices)
    {
      if desktopToggle.Some? { desktopToggle := Some(isDark); }
      if mobileToggle.Some? { mobileToggle := Some(isDark); }
    }

    /** `setThemeMode`: add the mode's class, remove the other, store the
        mode's name and synchronise the toggles. Other classes are kept. */
    method SetThemeMode(isDark: bool)
      modifies this
      ensures var m := if isDark then Dark else Light;
        Shows(m) &&
        bodyClasses == old(bodyClasses) - {ModeClass(Other(m))} + {ModeClass(m)}
      ensures desktopToggle.Some? == old(desktopToggle).Some?
      ensures mobileToggle.Some? == old(mobileToggle).Some?
      ensures notices == old(notices)
    {
      if isDark {
        bodyClasses := bodyClasses + {"dark-mode"};
        bodyClasses := bodyClasses - {"light-mode"};
      } else {
        bodyClasses := bodyClasses + {"light-mode"};
        bodyClasses := bodyClasses - {"dark-mode"};
      }
      stored := Some(if isDark then "dark" else "light");
      SyncThemeToggles(isDark);
    }

    /** `initializeTheme`: after a successful request the page shows the
        server mode, whatever was stored; otherwise it shows dark. */
    method InitializeTheme(response: ThemeFetch)
      modifies this
      ensures response.Fetched? ==> Shows(ServerMode(response.defaultTheme))
      ensures !response.Fetched? ==> Shows(Dark)
      ensures var m := if response.Fetched? then ServerMode(response.defaultTheme) else Dark;
        bodyClasses == old(bodyClasses) - {ModeClass(Other(m))} + {ModeClass(m)}
      ensures desktopToggle.Some? == old(desktopToggle).Some?
      ensures mobileToggle.Some? == old(mobileToggle).Some?
      ensures notices == old(notices)
    {
      match response {
        case Fetched(setting) =>
          var server := ServerMode(setting);
          var saved := stored;
          match LoadDecision(saved, server) {
            case KeepPreference =>
              SetThemeMode(saved.value == "dark");
            case OverwritePreference =>
              SetThemeMode(server == Dark);
              stored := Some(ModeName(server));
            case AdoptServer =>
              SetThemeMode(server == Dark);
          }
          assert LoadedMode(saved, server) == server;
        case NotOk =>
          SetThemeMode(true);
        case Failed =>
          SetThemeMode(true);
      }
    }

    /** `checkForThemeChanges`: when the stored value differs from the server
        mode, apply and store the server mode and show one notification;
        otherwise, and on any failed request, change nothing. */
    method CheckForThemeChanges(response: ThemeFetch)
      modifies this
      ensures response.Fetched? && PollChanges(old(stored), ServerMode(response.defaultTheme)) ==>
        Shows(ServerMode(response.defaultTheme)) &&
        bodyClasses == old(bodyClasses) - {ModeClass(Other(ServerMode(response.defaultTheme)))}
                                        + {ModeClass(ServerMode(response.defaultTheme))} &&
        notices == old(notices) + [ServerMode(response.defaultTheme)]
      ensures !(response.Fetched? && PollChanges(old(stored), ServerMode(response.defaultTheme))) ==>
        stored == old(stored) && bodyClasses == old(bodyClasses) &&
        desktopToggle == old(desktopToggle) && mobileToggle == old(mobileToggle) &&
        notices == old(notices)
      ensures response.Fetched? ==> stored == Some(ModeName(ServerMode(response.defaultTheme)))
      ensures desktopToggle.Some? == old(desktopToggle).Some?
      ensures mobileToggle.Some? == old(mobileToggle).Some?
    {
      if response.Fetched? {
        var server := ServerMode(response.defaultTheme);
        var saved := stored;
        if PollChanges(saved, server) {
          SetThemeMode(server == Dark);
          stored := Some(ModeName(server));
          notices := notices + [server];
        }
      }
    }

    /** The DOMContentLoaded handler: apply the initial mode from the stored
        value and the system preference. */
    method OnDomContentLoaded(prefersDark: bool)
      modifies this
      ensures Shows(InitialMode(old(stored), prefersDark))
      ensures var m := InitialMode(old(stored), prefersDark);
        bodyClasses == old(bodyClasses) - {ModeClass(Other(m))} + {ModeClass(m)}
      ensures desktopToggle.Some? == old(desktopToggle).Some?
      ensures mobileToggle.Some? == old(mobileToggle).Some?
      ensures notices == old(notices)
    {
      var saved := stored;
      var isDark := saved == Some("dark") || (!Truthy(saved) && prefersDark);
      SetThemeMode(isDark);
    }

    /** `handleThemeToggle`: either switch applies the mode it now shows. */
    method HandleThemeToggle(checked: bool)
      modifies this
      ensures Shows(if checked then Dark else Light)
      ensures var m := if checked then Dark else Light;
        bodyClasses == old(bodyClasses) - {ModeClass(Other(m))} + {ModeClass(m)}
      ensures desktopToggle.Some? == old(desktopToggle).Some?
      ensures mobileToggle.Some? == old(mobileToggle).Some?
      ensures notices == old(notices)
    {
      SetThemeMode(checked);
    }
  }

  /** A load followed by a poll with the same server setting shows the
      server mode and raises no notification. */
  method LoadThenPoll(t: ThemeController, setting: Option<string>)
    modifies t
    ensures t.Shows(ServerMode(setting))
    ensures t.notices == old(t.notices)
  {
    t.InitializeTheme(Fetched(setting));
    t.CheckForThemeChanges(Fetched(setting));
  }

  /** Two polls with the same server setting have the effect of one: the
      first may apply the server mode and raise one notification, and the
      second, finding the server mode stored, changes nothing. */
  method PollTwice(t: ThemeController, setting: Option<string>)
    modifies t
    ensures var m := ServerMode(setting);
      t.stored == Some(ModeName(m)) &&
      t.notices == old(t.notices) + (if PollChanges(old(t.stored), m) then [m] else [])
    ensures var m := ServerMode(setting);
      PollChanges(old(t.stored), m) ==>
        t.Shows(m) && t.bodyClasses == old(t.bodyClasses) - {ModeClass(Other(m))} + {ModeClass(m)}
    ensures !PollChanges(old(t.stored), ServerMode(setting)) ==>
      t.bodyClasses == old(t.bodyClasses) &&
      t.desktopToggle == old(t.desktopToggle) && t.mobileToggle == old(t.mobileToggle)
    ensures t.desktopToggle.Some? == old(t.desktopToggle).Some?
    ensures t.mobileToggle.Some? == old(t.mobileToggle).Some?
  {
    t.CheckForThemeChanges(Fetched(setting));
    t.CheckForThemeChanges(Fetched(setting));
  }
}
