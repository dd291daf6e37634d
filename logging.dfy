/**
 * Log levels with their short names, and the registry of log categories: every
 * category constructed is appended to one global singly linked list, which is
 * searched by name pointer and walked to change every category's level.
 *
 * The `const char*` name of a category is a `CStr`: its address, which is what
 * `find` compares, and the characters it points at.
 */
module Logging {
  import opened Wrappers
  import Algorithm
  import StringUtils

  datatype LogLevel = Off | Fatal | Error | Warning | Log | Verbose | VeryVerbose

  /** The enum's underlying value. */
  function Ord(l: LogLevel): (n: nat)
    ensures n < 7
  {
    match l
    case Off => 0
    case Fatal => 1
    case Error => 2
    case Warning => 3
    case Log => 4
    case Verbose => 5
    case VeryVerbose => 6
  }

  /** `static_cast<LogLevel>(n)`. */
  function FromOrd(n: nat): (l: LogLevel)
    requires n < 7
    ensures Ord(l) == n
  {
    [Off, Fatal, Error, Warning, Log, Verbose, VeryVerbose][n]
  }

  /** `logLevelsStrs`, indexed by `Ord`. */
  const LevelNames: seq<string> := ["Off", "FTL", "ERR", "WRN", "LOG", "VER", "VVE"]

  /** `to_string(LogLevel)`. */
  function ToString(l: LogLevel): string
  {
    LevelNames[Ord(l)]
  }

  /** Matches a table name case-insensitively against s. */
  function NameMatches(s: string): string -> bool
  {
    name => StringUtils.EqualsCi(s, name)
  }

  /** What `logLevelFromString` returns: the first level whose name equals s ignoring case, else `Off`. */
  function LevelFromString(s: string): (l: LogLevel)
    ensures StringUtils.EqualsCi(s, ToString(l)) || (l == Off && forall j :: 0 <= j < 7 ==> !StringUtils.EqualsCi(s, LevelNames[j]))
    ensures forall j :: 0 <= j < Ord(l) ==> !StringUtils.EqualsCi(s, LevelNames[j])
  {
    match Algorithm.FindIf(LevelNames, NameMatches(s))
    case Some(i) => FromOrd(i)
    case None => Off
  }

  /** `logLevelFromString`: try the names in enum order. */
  method LogLevelFromString(str: string) returns (l: LogLevel)
    ensures l == LevelFromString(str)
  {
    for i := 0 to 7
      invariant forall j :: 0 <= j < i ==> !StringUtils.EqualsCi(str, LevelNames[j])
    {
      var eq := StringUtils.AsciiStrEqualsCi(str, LevelNames[i]);
      if eq {
        assert NameMatches(str)(LevelNames[i]);
        return FromOrd(i);
      }
    }
    return Off;
  }

  /** No two level names are equal ignoring case. */
  lemma LevelNamesDistinctCi(i: nat, j: nat)
    requires i < 7 && j < 7
    ensures StringUtils.EqualsCi(LevelNames[i], LevelNames[j]) ==> i == j
  {
    var a, b := LevelNames[i], LevelNames[j];
    if i == j {
    } else if a[0] == b[0] {
      // only "VER" and "VVE" share a first letter
      assert StringUtils.ToLowerAscii(a[1]) != StringUtils.ToLowerAscii(b[1]);
    } else {
      assert StringUtils.ToLowerAscii(a[0]) != StringUtils.ToLowerAscii(b[0]);
    }
  }

  /** Parsing a level's name gives the level back. */
  lemma LevelFromStringRoundTrip(l: LogLevel)
    ensures LevelFromString(ToString(l)) == l
  {
    var s := ToString(l);
    var r := LevelFromString(s);
    StringUtils.EqualsCiIsLowerEquality(s, s);
    assert StringUtils.EqualsCi(s, ToString(r));
    LevelNamesDistinctCi(Ord(l), Ord(r));
  }

  function MinLevel(a: LogLevel, b: LogLevel): LogLevel
  {
    if Ord(a) <= Ord(b) then a else b
  }

  /** A `const char*`: an address and the characters there. */
  datatype CStr = CStr(addr: nat, text: string)

  /** `LogCategoryBase`: one registered category. */
  class LogCategory {
    const name: CStr
    const initialLevel: LogLevel
    const compileTimeLevel: LogLevel
    var level: LogLevel
    var next: LogCategory?

    /**
     * The constructor: the level starts at `initialLevel` (not clamped), and the category is
     * appended at the end of the registry's list (becoming its head when the list is empty).
     */
    constructor(reg: Registry, name: CStr, initialLevel: LogLevel, compileTimeLevel: LogLevel)
      requires reg.Valid()
      modifies reg, reg.Repr
      ensures reg.Valid() && reg.cats == old(reg.cats) + [this]
      ensures this.name == name && this.initialLevel == initialLevel && this.compileTimeLevel == compileTimeLevel
      ensures level == initialLevel && next == null
      ensures forall c :: c in old(reg.cats) ==> c.level == old(c.level)
    {
      this.name := name;
      this.initialLevel := initialLevel;
      this.level := initialLevel;
      this.compileTimeLevel := compileTimeLevel;
      this.next := null;
      new;
      reg.Append(this);
    }

    /** `isSuppressed`: a message is dropped when its level is above the category's. */
    predicate IsSuppressed(msgLevel: LogLevel)
      reads this
      ensures msgLevel == level || msgLevel == Off ==> !IsSuppressed(msgLevel)
      ensures level == Off ==> (IsSuppressed(msgLevel) <==> msgLevel != Off)
      ensures level == VeryVerbose ==> !IsSuppressed(msgLevel)
    {
      Ord(msgLevel) > Ord(level)
    }

    /** `setLevel`: the stored level is capped at the compile-time level. */
    method SetLevel(l: LogLevel)
      modifies this
      ensures level == MinLevel(compileTimeLevel, l) && next == old(next)
      ensures Ord(level) <= Ord(compileTimeLevel)
      ensures forall m :: Ord(m) > Ord(compileTimeLevel) || Ord(m) > Ord(l) ==> IsSuppressed(m)
      ensures forall m :: Ord(m) <= Ord(compileTimeLevel) && Ord(m) <= Ord(l) ==> !IsSuppressed(m)
    {
      level := MinLevel(compileTimeLevel, l);
    }
  }

  /** The index of the first category whose name pointer is `name`. */
  function FirstNamed(cats: seq<LogCategory>, name: CStr): (r: Option<nat>)
    ensures r.Some? ==> r.value < |cats| && cats[r.value].name.addr == name.addr
    ensures r.Some? ==> forall j :: 0 <= j < r.value ==> cats[j].name.addr != name.addr
    ensures r.None? ==> forall j :: 0 <= j < |cats| ==> cats[j].name.addr != name.addr
  {
    Algorithm.FindIf(cats, (c: LogCategory) => c.name.addr == name.addr)
  }

  /** The global list headed by `ms_first`, with the categories in it in list order. */
  class Registry {
    var first: LogCategory?
    ghost var cats: seq<LogCategory>
    ghost var Repr: set<object>

    ghost predicate Valid()
      reads this, Repr
    {
      && (forall i :: 0 <= i < |cats| ==> cats[i] in Repr)
      && (forall o :: o in Repr ==> o is LogCategory && (o as LogCategory) in cats)
      && (if |cats| == 0 then first == null else first == cats[0])
      && (forall i :: 0 <= i < |cats| - 1 ==> cats[i].next == cats[i + 1])
      && (|cats| > 0 ==> cats[|cats| - 1].next == null)
      && (forall i, j :: 0 <= i < j < |cats| ==> cats[i] != cats[j])
    }

    constructor()
      ensures Valid() && cats == [] && Repr == {}
    {
      first := null;
      cats := [];
      Repr := {};
    }

    /** What the constructor of a category does to the list: link `c` after the tail, or make it the head. */
    method Append(c: LogCategory)
      requires Valid() && c !in Repr && c.next == null
      modifies this, Repr
      ensures Valid() && cats == old(cats) + [c] && Repr == old(Repr) + {c}
      ensures forall x :: x in old(cats) ==> x.level == old(x.level)
    {
      if first == null {
        first := c;
      } else {
        var ptr := Last();
        ptr.next := c;
        forall i | 0 <= i < |cats| - 1
          ensures cats[i].next == cats[i + 1]
        {
          assert cats[i] != ptr;
        }
      }
      cats := cats + [c];
      Repr := Repr + {c};
    }

    /** The walk to the tail of the list that the constructor of a category performs. */
    method Last() returns (ptr: LogCategory)
      requires Valid() && first != null
      ensures |cats| > 0 && ptr == cats[|cats| - 1]
    {
      ptr := first;
      ghost var k := 0;
      while ptr.next != null
        invariant 0 <= k < |cats| && ptr == cats[k]
        invariant ptr.next == if k + 1 < |cats| then cats[k + 1] else null
        decreases |cats| - k
      {
        ptr := ptr.next;
        k := k + 1;
      }
    }

    /** `find`: the first category whose name is the same pointer, or null. */
    method Find(name: CStr) returns (r: LogCategory?)
      requires Valid()
      ensures FirstNamed(cats, name).None? ==> r == null
      ensures FirstNamed(cats, name).Some? ==> r == cats[FirstNamed(cats, name).value]
    {
      var ptr := first;
      ghost var k := 0;
      while ptr != null
        invariant 0 <= k <= |cats|
        invariant if k < |cats| then ptr == cats[k] else ptr == null
        invariant forall j :: 0 <= j < k ==> cats[j].name.addr != name.addr
        decreases |cats| - k
      {
        if ptr.name.addr == name.addr {
          return ptr;
        }
        ptr := ptr.next;
        k := k + 1;
      }
      return null;
    }

    /** `setLogLevel`: `setLevel` on every registered category, in list order. */
    method SetLogLevel(l: LogLevel)
      requires Valid()
      modifies Repr
      ensures Valid() && cats == old(cats)
      ensures forall i :: 0 <= i < |cats| ==> cats[i].level == MinLevel(cats[i].compileTimeLevel, l)
    {
      var it := first;
      ghost var k := 0;
      while it != null
        invariant Valid() && cats == old(cats) && Repr == old(Repr)
        invariant 0 <= k <= |cats|
        invariant if k < |cats| then it == cats[k] else it == null
        invariant forall i :: 0 <= i < |cats| - 1 ==> cats[i].next == cats[i + 1]
        invariant |cats| > 0 ==> cats[|cats| - 1].next == null
        invariant forall i :: 0 <= i < k ==> cats[i].level == MinLevel(cats[i].compileTimeLevel, l)
        decreases |cats| - k
      {
        it.SetLevel(l);
        it := it.next;
        k := k + 1;
      }
    }
  }
}
