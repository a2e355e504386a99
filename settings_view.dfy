/**
  The configuration screen (components/SettingsView.tsx): five on/off
  switches held in one record; four of them have a row on screen, and
  `toggle` flips any one of them.
 */
module Settings {

  datatype Config = Config(
    autoPrint: bool,
    saveToCloud: bool,
    showQrCode: bool,
    beautyFilter: bool,
    countdown: bool)

  /** The names of the five switches, `keyof typeof config`. */
  datatype Key = AutoPrint | SaveToCloud | ShowQrCode | BeautyFilter | Countdown

  /** `config[key]`. */
  function Get(c: Config, k: Key): bool
  {
    match k
    case AutoPrint => c.autoPrint
    case SaveToCloud => c.saveToCloud
    case ShowQrCode => c.showQrCode
    case BeautyFilter => c.beautyFilter
    case Countdown => c.countdown
  }

  /** A configuration is determined by the values of its five switches. */
  lemma ConfigExtensional(c: Config, d: Config)
    requires forall k :: Get(c, k) == Get(d, k)
    ensures c == d
  {
    assert Get(c, AutoPrint) == Get(d, AutoPrint);
    assert Get(c, SaveToCloud) == Get(d, SaveToCloud);
    assert Get(c, ShowQrCode) == Get(d, ShowQrCode);
    assert Get(c, BeautyFilter) == Get(d, BeautyFilter);
    assert Get(c, Countdown) == Get(d, Countdown);
  }

  /** The configuration the screen opens with: every switch on except auto-print. */
  function InitialConfig(): (c: Config)
    ensures forall k :: Get(c, k) <==> k != AutoPrint
  {
    Config(false, true, true, true, true)
  }

  /** `toggle(key)`: the record with that one switch flipped. */
  function Toggle(c: Config, k: Key): (r: Config)
    ensures Get(r, k) == !Get(c, k)
    ensures forall j :: j != k ==> Get(r, j) == Get(c, j)
  {
    match k
    case AutoPrint => c.(autoPrint := !c.autoPrint)
    case SaveToCloud => c.(saveToCloud := !c.saveToCloud)
    case ShowQrCode => c.(showQrCode := !c.showQrCode)
    case BeautyFilter => c.(beautyFilter := !c.beautyFilter)
    case Countdown => c.(countdown := !c.countdown)
  }

  /** Flipping the same switch twice gives back the configuration. */
  lemma ToggleTwice(c: Config, k: Key)
    ensures Toggle(Toggle(c, k), k) == c
  {
    var r := Toggle(Toggle(c, k), k);
    forall j ensures Get(r, j) == Get(c, j) {
    }
    ConfigExtensional(r, c);
  }
}
