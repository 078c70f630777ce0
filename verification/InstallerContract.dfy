/** What the installer window and the Installation Engine say to each other:
    typed actions one way, typed events the other. */
module InstallerContract {
  import opened Text

  datatype Protection = ELIGIBLE | AMBIGUOUS | Protected(code: string)

  datatype Disk = Disk(byPath: string, protection: Protection, token: string)

  /** `address` and `gateway` are the number a dotted quad stands for, or None
      when the text is not one. */
  datatype Network =
    | Automatic
    | Static(iface: string, address: Option<nat>, prefix: int, gateway: Option<nat>, dns: seq<Option<nat>>)

  datatype Settings = Settings(keyboard: string, network: Network, hostname: Option<string>)

  datatype Step =
    | MEDIA | WELCOME | DRIVEN_ELSEWHERE | COMPATIBILITY | KEYBOARD | NETWORK | STORAGE
    | ADVANCED | REVIEW | KEY_OFFER | INSTALLING | INSTALLED | FAILED

  /** A step with what the engine says about it. */
  datatype StepState =
    | Media
    | Welcome
    | DrivenElsewhere
    | Compatibility(blocked: bool)
    | Keyboard(chosen: string)
    | NetworkStep(network: Network, refused: bool)
    | Storage(disks: seq<Disk>, refused: bool)
    | Advanced(hostname: Option<string>, refused: bool)
    | Review(disk: Disk, settings: Settings)
    | KeyOffer
    | Installing
    | Installed
    | Failed
  {
    function Step(): Step {
      match this
      case Media => MEDIA
      case Welcome => WELCOME
      case DrivenElsewhere => DRIVEN_ELSEWHERE
      case Compatibility(_) => COMPATIBILITY
      case Keyboard(_) => KEYBOARD
      case NetworkStep(_, _) => NETWORK
      case Storage(_, _) => STORAGE
      case Advanced(_, _) => ADVANCED
      case Review(_, _) => REVIEW
      case KeyOffer => KEY_OFFER
      case Installing => INSTALLING
      case Installed => INSTALLED
      case Failed => FAILED
    }
  }

  datatype Event =
    | Hello
    | StepEvent(state: StepState)
    | ConfirmationChecked(valid: bool)
    | StageDone(name: string, ok: bool)
    | Detail(line: string)

  datatype Action =
    | Begin
    | Continue
    | Back
    | Rescan
    | Restart
    | PowerOff
    | ChooseKeyboard(layout: string)
    | SetNetwork(network: Network)
    | SetHostname(hostname: Option<string>)
    | SelectDisk(byPath: string)
    | CheckConfirmation(typed: string)
    | Confirm(typed: string)
    | AnswerKey(authorise: bool)

  datatype Scenario = PlainInstall | BlockedMachine | FailingWrite | ElsewhereFirst | WithKey | ReportOnly

  /** What is fixed for one machine and one boot. `upper` is the upper-casing
      of the platform, whatever it does to letters outside ASCII. */
  datatype Machine = Machine(
    scenario: Scenario,
    disks: seq<Disk>,
    layouts: seq<string>,
    interfaces: seq<string>,
    upper: string -> string)
  {
    /** The engine's rule: the text typed, trimmed and upper-cased, is the
        upper-cased token of the disk. */
    predicate Accepts(disk: Disk, typed: string) {
      upper(Strip(typed)) == upper(disk.token)
    }
  }

  predicate Selectable(d: Disk) {
    d.protection == ELIGIBLE || d.protection == AMBIGUOUS
  }
}
