/** The configuration rules of `src/config.rs`: the region table, validation and
    the command-line selection of characters. */
module Config {
  import opened Wrappers
  import Seqs
  import Text

  /** Rust's `u8`. */
  type U8 = x: int | 0 <= x < 0x100

  datatype Region = Us | Jp | Eu

  /** One configured character. `password` is an opaque secret typed into the login screen. */
  datatype Character = Character(name: string, slot: U8, password: string)

  datatype Config = Config(
    windowerPath: string,
    windowerProfile: Option<string>,
    playonlineDir: string,
    staggerDelaySeconds: nat,
    launchDelaySeconds: nat,
    region: Region,
    characters: seq<Character>)

  /** `Region::proxy_port`: the fixed port the redirect proxy listens on for a region. */
  function ProxyPort(r: Region): (port: nat)
    ensures 0 < port < 0x1_0000
    ensures r == Us <==> port == 51304
    ensures r == Jp <==> port == 51300
    ensures r == Eu <==> port == 51302
  {
    match r
    case Us => 51304
    case Jp => 51300
    case Eu => 51302
  }

  /** Different regions never share a proxy port. */
  lemma ProxyPortInjective(a: Region, b: Region)
    ensures ProxyPort(a) == ProxyPort(b) ==> a == b
  {
  }

  /** `Region::hosts_entry`: the line that redirects the PlayOnline host to the local proxy. */
  function HostsEntry(r: Region): (e: string)
    ensures |e| > 10 && e[..10] == "127.0.0.1 " && e[10..] == "wh000.pol.com"
    ensures forall i :: 0 <= i < |e| ==> e[i] != '\n' && e[i] != '\r'
  {
    "127.0.0.1 wh000.pol.com"
  }

  /** All regions use the same hosts entry. */
  lemma HostsEntryIndependentOfRegion(a: Region, b: Region)
    ensures HostsEntry(a) == HostsEntry(b)
  {
  }

  datatype ConfigError = NoCharacters | InvalidSlot(name: string, slot: U8) | ZeroStaggerDelay

  predicate ValidSlot(slot: U8)
  {
    1 <= slot <= 20
  }

  /** `i` is the first character, in configuration order, whose slot is out of range. */
  predicate FirstInvalidAt(chars: seq<Character>, i: nat)
  {
    i < |chars| && !ValidSlot(chars[i].slot) && forall j :: 0 <= j < i ==> ValidSlot(chars[j].slot)
  }

  /** The index the slot loop of `Config::validate` stops at, if any. */
  function FirstInvalidSlot(chars: seq<Character>): (r: Option<nat>)
    ensures r.Some? ==> FirstInvalidAt(chars, r.value)
    ensures r.None? ==> forall i :: 0 <= i < |chars| ==> ValidSlot(chars[i].slot)
  {
    if chars == [] then None
    else if !ValidSlot(chars[0].slot) then Some(0)
    else match FirstInvalidSlot(chars[1..])
      case None => None
      case Some(i) => Some(i + 1)
  }

  /** `Config::validate`: a non-empty character list, every slot in 1..20 and a positive
      stagger delay; the checks run in that order and the first that fails decides the error.
      The launch delay is not checked. */
  function Validate(cfg: Config): (r: Result<(), ConfigError>)
    ensures r.Ok? <==>
      |cfg.characters| > 0
      && (forall i :: 0 <= i < |cfg.characters| ==> ValidSlot(cfg.characters[i].slot))
      && cfg.staggerDelaySeconds > 0
    ensures r == Err(NoCharacters) <==> cfg.characters == []
    ensures r.Err? && r.error.InvalidSlot? <==>
      cfg.characters != [] && exists i :: 0 <= i < |cfg.characters| && !ValidSlot(cfg.characters[i].slot)
    ensures r.Err? && r.error.InvalidSlot? ==>
      exists i: nat :: FirstInvalidAt(cfg.characters, i)
        && r.error == InvalidSlot(cfg.characters[i].name, cfg.characters[i].slot)
    ensures r == Err(ZeroStaggerDelay) <==>
      cfg.characters != []
      && (forall i :: 0 <= i < |cfg.characters| ==> ValidSlot(cfg.characters[i].slot))
      && cfg.staggerDelaySeconds == 0
  {
    if cfg.characters == [] then Err(NoCharacters)
    else match FirstInvalidSlot(cfg.characters)
      case Some(i) => Err(InvalidSlot(cfg.characters[i].name, cfg.characters[i].slot))
      case None => if cfg.staggerDelaySeconds == 0 then Err(ZeroStaggerDelay) else Ok(())
  }

  /** Changing the launch delay never changes the verdict of `Validate`. */
  lemma ValidateIgnoresLaunchDelay(cfg: Config, d: nat)
    ensures Validate(cfg.(launchDelaySeconds := d)) == Validate(cfg)
  {
  }

  /** Some requested name equals `name`, ignoring ASCII case. */
  predicate Requested(names: seq<string>, name: string)
  {
    exists i :: 0 <= i < |names| && Text.EqIgnoreAsciiCase(names[i], name)
  }

  /** `Config::filter_characters`: with no names every character, otherwise the characters
      named (ignoring ASCII case), in configuration order, none added or repeated. */
  function FilterCharacters(chars: seq<Character>, names: seq<string>): (r: seq<Character>)
    ensures names == [] ==> r == chars
    ensures names != [] ==> forall c :: c in r <==> c in chars && Requested(names, c.name)
    ensures Seqs.IsSubsequence(r, chars)
    ensures forall c :: c in chars ==> multiset(r)[c] <= multiset(chars)[c]
    ensures names != [] ==> forall c :: multiset(r)[c] == if Requested(names, c.name) then multiset(chars)[c] else 0
  {
    if names == [] then
      Seqs.SubsequenceReflexive(chars);
      chars
    else
      var p := (c: Character) => Requested(names, c.name);
      Seqs.FilterIsSubsequence(p, chars);
      Seqs.FilterCounts(p, chars);
      Seqs.Filter(p, chars)
  }
}
