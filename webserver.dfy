/**
 * The server's own helpers: the random suffix generator behind temporary
 * file names (a 32-bit linear congruential generator), the choice of the
 * temporary directory, the bounded create-or-retry loop that picks a fresh
 * temporary file name, and the reading of the port lists from the flags.
 */
module WebServer {
  import opened Decimal
  import opened Text

  // ---------------------------------------------------------------------------
  // The suffix generator
  // ---------------------------------------------------------------------------

  const TwoTo32: int := 0x1_0000_0000

  /** An unsigned 32-bit value; arithmetic on it wraps modulo 2^32. */
  type Uint32 = x: int | 0 <= x < 0x1_0000_0000

  /** The generator's constants (from Numerical Recipes). */
  const Multiplier: int := 1664525
  const Increment: int := 1013904223

  /** The multiplicative inverse of Multiplier modulo 2^32. */
  const InverseMultiplier: int := 4276115653

  /**
   * One step of the generator, in wrapping 32-bit arithmetic. The multiplier
   * is odd and the increment is odd, so every step flips the lowest bit.
   */
  function Lcg(r: Uint32): (y: Uint32)
    ensures y % 2 != r % 2
  {
    OddMultipleParity(r);
    WrapParity(r * Multiplier + Increment);
    (r * Multiplier + Increment) % TwoTo32
  }

  /** A proof step for Lcg: Multiplier is odd, so multiplying by it keeps the lowest bit. */
  lemma OddMultipleParity(r: nat)
    ensures (r * Multiplier) % 2 == r % 2
  {
    var half := (Multiplier - 1) / 2;
    assert Multiplier == 2 * half + 1;
    assert r * Multiplier == 2 * (r * half) + r;
  }

  /** A proof step for Lcg: 2^32 is even, so wrapping keeps the lowest bit. */
  lemma WrapParity(x: int)
    ensures (x % TwoTo32) % 2 == x % 2
  {
  }

  /** The state a step starts from: the current state, or a fresh seed when the state is 0. */
  function Seeded(state: Uint32, reseed: Uint32): Uint32
  {
    if state == 0 then reseed else state
  }

  /** Undoes one step of the generator. */
  function LcgInverse(y: Uint32): Uint32
  {
    ((y - Increment) * InverseMultiplier) % TwoTo32
  }

  /** A step can be undone, so the generator permutes the 2^32 states and never merges two of them. */
  lemma LcgRoundTrip(r: Uint32)
    ensures LcgInverse(Lcg(r)) == r
  {
    var a := r * Multiplier;
    var q := (a + Increment) / TwoTo32;
    var y := Lcg(r);
    assert a + Increment == q * TwoTo32 + y;
    assert y - Increment == a - q * TwoTo32;
    assert Multiplier * InverseMultiplier == 1657219 * TwoTo32 + 1;
    assert a * InverseMultiplier == r + r * 1657219 * TwoTo32;
    assert (y - Increment) * InverseMultiplier == r + (r * 1657219 - q * InverseMultiplier) * TwoTo32;
    WrapMultiple(r, r * 1657219 - q * InverseMultiplier);
  }

  /** Adding a multiple of 2^32 to a 32-bit value is undone by the wrap. */
  lemma WrapMultiple(r: Uint32, k: int)
    ensures (r + k * TwoTo32) % TwoTo32 == r
  {
  }

  lemma LcgInjective(a: Uint32, b: Uint32)
    requires Lcg(a) == Lcg(b)
    ensures a == b
  {
    LcgRoundTrip(a);
    LcgRoundTrip(b);
  }

  /** A step always changes the state, since it flips the lowest bit (the contract of Lcg). */
  lemma LcgNoFixedPoint(r: Uint32)
    ensures Lcg(r) != r
  {
    assert Lcg(r) % 2 != r % 2;
  }

  /** The suffix for a state: the last nine decimal digits of the state, zero-padded. */
  function Suffix(r: Uint32): (s: string)
    ensures |s| == 9 && AllDigits(s)
  {
    Pad(r % 1000000000, 9)
  }

  /** A suffix is nine digits that read back as the state modulo 10^9. */
  lemma SuffixDigits(r: Uint32)
    ensures |Suffix(r)| == 9 && AllDigits(Suffix(r))
    ensures ParseDigits(Suffix(r)) == r % 1000000000
  {
    assert Pow10(9) == 1000000000;
    ParsePad(r % 1000000000, 9);
  }

  /** Rendering 10^9 + x and dropping the leading '1' gives x's last nine digits. */
  lemma SuffixOfRendering(r: Uint32)
    ensures NatToString(1000000000 + r % 1000000000)[1..] == Suffix(r)
  {
    assert Pow10(9) == 1000000000;
    NatToStringLeadingOne(r % 1000000000, 9);
  }

  /**
   * The generator object. The server keeps its state in one shared
   * variable, starting at 0; the lock around it is not modelled.
   */
  class Generator {
    var randuint: Uint32

    constructor ()
      ensures randuint == 0
    {
      randuint := 0;
    }

    /** Steps the generator (reseeding a zero state with `reseed`) and returns the new state's suffix. */
    method NextSuffix(reseed: Uint32) returns (suffix: string)
      modifies this
      ensures randuint == Lcg(Seeded(old(randuint), reseed))
      ensures suffix == Suffix(randuint)
    {
      var r := randuint;
      if r == 0 {
        r := reseed;
      }
      r := (r * 1664525 + 1013904223) % TwoTo32;
      randuint := r;
      suffix := NatToString(1000000000 + r % 1000000000)[1..];
      SuffixOfRendering(r);
    }

    /**
     * One attempt of the retry loop: draws the next suffix and tries to
     * create the file named by the directory, the prefix and that suffix.
     */
    method TryName(dir: string, prefix: string, fs: FileSystem, k: nat, ghost initial: Uint32,
                   clock: nat -> Uint32) returns (name: string, result: OpenResult)
      requires randuint == StateBefore(k, initial, clock)
      modifies this, fs
      ensures randuint == StateAt(k, initial, clock)
      ensures name == Candidate(dir, prefix, k, initial, clock)
      ensures result == if name in old(fs.files) then AlreadyExists
        else if name in fs.refused then OtherError else Created
      ensures fs.files == if result == Created then old(fs.files) + {name} else old(fs.files)
    {
      var suffix := NextSuffix(clock(2 * k));
      name := JoinPath(dir, prefix + suffix);
      result := fs.CreateExclusive(name);
    }

    /**
     * Picks a temporary file name: draws names in the temporary directory
     * until one can be created or a try fails for another reason than "it
     * already exists", at most MaxAttempts times, reseeding after every
     * conflict beyond the MaxConflicts-th. The name returned is the last one
     * tried, even when every try conflicted. `clock(2 * k)` and
     * `clock(2 * k + 1)` are the seeds a reseed would read during attempt k.
     */
    method TempFilename(prefix: string, env: Env, fs: FileSystem, clock: nat -> Uint32)
      returns (fileName: string, ghost attempts: nat)
      modifies this, fs
      ensures 1 <= attempts <= MaxAttempts
      ensures fileName == Candidate(TempDir(env), prefix, attempts - 1, old(randuint), clock)
      ensures AllConflict(TempDir(env), prefix, attempts - 1, old(randuint), clock, old(fs.files))
      ensures attempts < MaxAttempts ==> fileName !in old(fs.files)
      ensures randuint == if fileName in old(fs.files)
        then StateBefore(attempts, old(randuint), clock)
        else StateAt(attempts - 1, old(randuint), clock)
      ensures fs.files == if fileName in old(fs.files) || fileName in fs.refused
        then old(fs.files) else old(fs.files) + {fileName}
    {
      ghost var initial := randuint;
      var dir := TempDir(env);
      var nconflict := 0;
      fileName := "";
      attempts := 0;
      ghost var last := 0;
      for i := 0 to MaxAttempts
        invariant nconflict == i && attempts == i
        invariant i > 0 ==> last == i - 1 && fileName == Candidate(dir, prefix, last, initial, clock)
        invariant i > 0 ==> fileName in old(fs.files)
        invariant AllConflict(dir, prefix, i, initial, clock, old(fs.files))
        invariant randuint == StateBefore(i, initial, clock)
        invariant fs.files == old(fs.files)
      {
        var result;
        fileName, result := TryName(dir, prefix, fs, i, initial, clock);
        attempts, last := i + 1, i;
        if result != AlreadyExists {
          break;
        }
        nconflict := Conflict(nconflict, i, initial, clock);
        AllConflictExtend(dir, prefix, i, initial, clock, old(fs.files));
      }
      assert last == attempts - 1;
    }

    /**
     * The conflict branch of the retry loop: counts the conflict and, once
     * there have been more than MaxConflicts, reseeds the generator from
     * `clock(2 * k + 1)`.
     */
    method Conflict(nconflict: nat, k: nat, ghost initial: Uint32, clock: nat -> Uint32) returns (count: nat)
      requires nconflict == k && randuint == StateAt(k, initial, clock)
      modifies this
      ensures count == k + 1 && randuint == StateBefore(k + 1, initial, clock)
    {
      count := nconflict + 1;
      if count > MaxConflicts {
        randuint := clock(2 * k + 1);
      }
    }
  }

  // ---------------------------------------------------------------------------
  // Temporary file names
  // ---------------------------------------------------------------------------

  const MaxAttempts: nat := 10000
  const MaxConflicts: nat := 10

  /** The environment variables that may name a temporary directory ("" when unset). */
  datatype Env = Env(tmpdir: string, tmp: string, temp: string)

  /** The first non-empty of TMPDIR, TMP and TEMP, and "/tmp" when all are empty. */
  function TempDir(env: Env): (dir: string)
    ensures dir != ""
    ensures var candidates := [env.tmpdir, env.tmp, env.temp, "/tmp"];
      exists k :: 0 <= k < 4 && candidates[k] == dir && forall j :: 0 <= j < k ==> candidates[j] == ""
  {
    var candidates := [env.tmpdir, env.tmp, env.temp, "/tmp"];
    if env.tmpdir != "" then
      assert candidates[0] == env.tmpdir;
      env.tmpdir
    else if env.tmp != "" then
      assert candidates[1] == env.tmp;
      env.tmp
    else if env.temp != "" then
      assert candidates[2] == env.temp;
      env.temp
    else
      assert candidates[3] == "/tmp";
      "/tmp"
  }

  /**
   * A stand-in for joining a directory and a file name: the path is the
   * directory, then one '/' unless the directory already ends in one, then the name.
   */
  function JoinPath(dir: string, name: string): (path: string)
    ensures |path| == |dir| + |name| + (if |dir| > 0 && dir[|dir| - 1] == '/' then 0 else 1)
    ensures path[..|dir|] == dir && path[|path| - |name|..] == name
    ensures path[|path| - |name| - 1] == '/'
  {
    if |dir| > 0 && dir[|dir| - 1] == '/' then dir + name else dir + "/" + name
  }

  /** What an exclusive create answers. */
  datatype OpenResult = Created | AlreadyExists | OtherError

  /**
   * The file system as the retry loop sees it: the files that exist, and
   * the paths that cannot be created for another reason (a missing
   * directory, a permission).
   */
  class FileSystem {
    var files: set<string>
    const refused: set<string>

    constructor (files: set<string>, refused: set<string>)
      ensures this.files == files && this.refused == refused
    {
      this.files := files;
      this.refused := refused;
    }

    /** Creates `name` only if nothing exists there (an exclusive create); the file is closed at once. */
    method CreateExclusive(name: string) returns (result: OpenResult)
      modifies this
      ensures result == if name in old(files) then AlreadyExists
        else if name in refused then OtherError else Created
      ensures files == if result == Created then old(files) + {name} else old(files)
    {
      if name in files {
        result := AlreadyExists;
      } else if name in refused {
        result := OtherError;
      } else {
        result := Created;
        files := files + {name};
      }
    }
  }

  /** The state left after attempt k conflicted: conflict k + 1 reseeds once it exceeds MaxConflicts. */
  function AfterConflict(k: nat, state: Uint32, clock: nat -> Uint32): Uint32
  {
    if k + 1 > MaxConflicts then clock(2 * k + 1) else state
  }

  /** The generator state once attempt k has drawn its suffix, every earlier attempt having conflicted. */
  function StateAt(k: nat, initial: Uint32, clock: nat -> Uint32): Uint32
    decreases k, 1
  {
    if k == 0 then Lcg(Seeded(initial, clock(0)))
    else Lcg(Seeded(StateBefore(k, initial, clock), clock(2 * k)))
  }

  /** The generator state attempt k starts from. */
  function StateBefore(k: nat, initial: Uint32, clock: nat -> Uint32): Uint32
    decreases k, 0
  {
    if k == 0 then initial else AfterConflict(k - 1, StateAt(k - 1, initial, clock), clock)
  }

  /** The name attempt k tries: the directory joined with the prefix and that attempt's suffix. */
  function Candidate(dir: string, prefix: string, k: nat, initial: Uint32, clock: nat -> Uint32): string
  {
    JoinPath(dir, prefix + Suffix(StateAt(k, initial, clock)))
  }

  /** Every one of the first n attempts hit an existing file. */
  ghost predicate AllConflict(dir: string, prefix: string, n: nat, initial: Uint32, clock: nat -> Uint32,
                              files: set<string>)
  {
    forall k :: 0 <= k < n ==> Candidate(dir, prefix, k, initial, clock) in files
  }

  /** The first n + 1 attempts all conflict exactly when the first n do and attempt n does too. */
  lemma AllConflictExtend(dir: string, prefix: string, n: nat, initial: Uint32, clock: nat -> Uint32,
                          files: set<string>)
    ensures AllConflict(dir, prefix, n + 1, initial, clock, files) <==>
      AllConflict(dir, prefix, n, initial, clock, files) && Candidate(dir, prefix, n, initial, clock) in files
  {
  }

  /** The states the generator alone produces from `initial`, reseeding only a zero state. */
  function Chain(k: nat, initial: Uint32, clock: nat -> Uint32): Uint32
  {
    if k == 0 then Lcg(Seeded(initial, clock(0)))
    else Lcg(Seeded(Chain(k - 1, initial, clock), clock(2 * k)))
  }

  /** Up to the MaxConflicts-th conflict the loop does not reseed: its states are the generator's own. */
  lemma {:induction false} NoReseedBeforeLimit(k: nat, initial: Uint32, clock: nat -> Uint32)
    requires k <= MaxConflicts
    ensures StateAt(k, initial, clock) == Chain(k, initial, clock)
  {
    if k > 0 {
      NoReseedBeforeLimit(k - 1, initial, clock);
    }
  }

  /**
   * Below the limit the next attempt starts from the state this attempt
   * left, so unless that state is 0 (and is reseeded) the next state is new.
   */
  lemma NextAttemptMoves(k: nat, initial: Uint32, clock: nat -> Uint32)
    requires k < MaxConflicts
    ensures StateAt(k + 1, initial, clock) == Lcg(Seeded(StateAt(k, initial, clock), clock(2 * k + 2)))
    ensures StateAt(k, initial, clock) != 0 ==> StateAt(k + 1, initial, clock) != StateAt(k, initial, clock)
  {
    var s := StateAt(k, initial, clock);
    assert AfterConflict(k, s, clock) == s;
    assert StateAt(k + 1, initial, clock) == Lcg(Seeded(s, clock(2 * (k + 1))));
    assert 2 * (k + 1) == 2 * k + 2;
    if s != 0 {
      LcgNoFixedPoint(s);
    }
  }

  // ---------------------------------------------------------------------------
  // Port lists
  // ---------------------------------------------------------------------------

  const DefaultHttpPorts: string := "80"
  const DefaultHttpsPorts: string := "443"

  /** A port list flag: the default value as the single port, anything else split at each ','. */
  function SelectPorts(csv: string, default: string): (ports: seq<string>)
    ensures csv == default ==> ports == [default]
    ensures csv != default ==> ports == Split(csv, ',')
    ensures Join(ports, ',') == csv
  {
    if csv == default then [default]
    else
      JoinSplit(csv, ',');
      Split(csv, ',')
  }

  /** The HTTP and the HTTPS port lists, read from their two flags. */
  function PortLists(httpCSV: string, httpsCSV: string): (lists: (seq<string>, seq<string>))
    ensures lists.0 == (if httpCSV == DefaultHttpPorts then ["80"] else Split(httpCSV, ','))
    ensures lists.1 == (if httpsCSV == DefaultHttpsPorts then ["443"] else Split(httpsCSV, ','))
    ensures Join(lists.0, ',') == httpCSV && Join(lists.1, ',') == httpsCSV
  {
    (SelectPorts(httpCSV, DefaultHttpPorts), SelectPorts(httpsCSV, DefaultHttpsPorts))
  }

  /** The special case for the default agrees with splitting, so every list is the flag split at ','. */
  lemma SelectPortsIsSplit(csv: string, default: string)
    requires ',' !in default
    ensures SelectPorts(csv, default) == Split(csv, ',')
  {
    if csv == default {
      assert IndexOf(csv, ',') < 0;
    }
  }

  /** An empty flag is not an empty list: it names one empty port. */
  lemma SelectPortsEmptyFlag(default: string)
    requires default != ""
    ensures SelectPorts("", default) == [""]
  {
    SplitEmpty(',');
  }

  /** A trailing comma in a flag adds one empty port at the end of the list. */
  lemma SelectPortsTrailingComma(csv: string, default: string)
    requires ',' !in default
    ensures SelectPorts(csv + [','], default) == SelectPorts(csv, default) + [""]
  {
    assert csv + [','] != default by {
      assert (csv + [','])[|csv|] == ',';
    }
    SplitTrailing(csv, ',');
    SelectPortsIsSplit(csv, default);
  }

  /** A list of comma-free ports written as a flag is read back as the same list. */
  lemma SelectPortsOfJoin(ports: seq<string>, default: string)
    requires |ports| >= 1 && forall k :: 0 <= k < |ports| ==> ',' !in ports[k]
    requires ',' !in default
    ensures SelectPorts(Join(ports, ','), default) == ports
  {
    SplitJoin(ports, ',');
    SelectPortsIsSplit(Join(ports, ','), default);
  }
}
