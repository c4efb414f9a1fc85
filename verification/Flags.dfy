/** Command lines: which arguments are this program's and which belong to the program it starts. */
module Flags {
  import opened Sequences
  import opened Wrappers

  /** An argument, and which of the pointers to its text this is: the source compares pointers. */
  datatype Arg = Arg(text: string, pointer: nat)

  datatype FlagType = Bool | String | UnsignedInt | Int | ApiPointer

  datatype Flag = Flag(kind: FlagType, name: string)

  function LowerChar(c: char): char { if 'A' <= c <= 'Z' then c - 'A' + 'a' else c }

  /** Equality of strings but for the case of letters. */
  predicate SameName(a: string, b: string) {
    |a| == |b| && forall i :: 0 <= i < |a| ==> LowerChar(a[i]) == LowerChar(b[i])
  }

  /** The first of the first n flags with this name, or -1. */
  function FlagIndex(flags: seq<Flag>, name: string, n: nat): (r: int)
    requires n <= |flags|
    ensures -1 <= r < n && (r >= 0 ==> SameName(flags[r].name, name))
    ensures forall i :: 0 <= i < n && (r < 0 || i < r) ==> !SameName(flags[i].name, name)
  {
    if n == 0 then -1
    else
      var r := FlagIndex(flags, name, n - 1);
      if r >= 0 then r else if SameName(flags[n - 1].name, name) then n - 1 else -1
  }

  function Find(flags: seq<Flag>, a: Arg): (r: int)
    ensures -1 <= r < |flags|
  {
    FlagIndex(flags, a.text, |flags|)
  }

  predicate Known(flags: seq<Flag>, a: Arg) { Find(flags, a) >= 0 }

  predicate TakesValue(flags: seq<Flag>, a: Arg) { Known(flags, a) && flags[Find(flags, a)].kind != Bool }

  predicate IsApi(flags: seq<Flag>, a: Arg) { Dashed(a) && Known(flags, a) && flags[Find(flags, a)].kind == ApiPointer }

  predicate Dashed(a: Arg) { |a.text| > 0 && a.text[0] == '-' }

  /** The program to run, as far as it can be told from the arguments after the program's own name. */
  function Callee(flags: seq<Flag>, s: seq<Arg>): Option<Arg>
    decreases |s|
  {
    if s == [] then None
    else if !Dashed(s[0]) then Some(s[0])
    else if !Known(flags, s[0]) then None
    else Callee(flags, if TakesValue(flags, s[0]) && |s| > 1 then s[2..] else s[1..])
  }

  /** The first place of a pointer in the arguments, or their number. */
  function PlaceOf(s: seq<Arg>, a: Arg): (i: nat)
    ensures i <= |s| && (i < |s| ==> s[i] == a) && forall j :: 0 <= j < i ==> s[j] != a
  {
    if s == [] || s[0] == a then 0 else 1 + PlaceOf(s[1..], a)
  }

  function Without(s: seq<Arg>, i: nat): seq<Arg>
    requires i < |s|
  {
    s[..i] + s[i + 1..]
  }

  function CalleeFirst(s: seq<Arg>, callee: Option<Arg>): seq<Arg> {
    if callee.None? || PlaceOf(s, callee.value) == |s| then s
    else [callee.value] + Without(s, PlaceOf(s, callee.value))
  }

  /** How many arguments a known flag comes with, itself included. */
  function Width(flags: seq<Flag>, s: seq<Arg>): (n: nat)
    requires s != []
    ensures 1 <= n <= |s|
  {
    if TakesValue(flags, s[0]) && |s| > 1 then 2 else 1
  }

  /** The known flags with their values, in order. */
  function Mine(flags: seq<Flag>, s: seq<Arg>): (r: seq<Arg>)
    ensures |r| <= |s|
    decreases |s|
  {
    if s == [] then []
    else if Known(flags, s[0]) then s[..Width(flags, s)] + Mine(flags, s[Width(flags, s)..])
    else Mine(flags, s[1..])
  }

  /** Everything else, in order. */
  function Others(flags: seq<Flag>, s: seq<Arg>): (r: seq<Arg>)
    ensures forall i :: 0 <= i < |r| ==> !Known(flags, r[i])
    decreases |s|
  {
    if s == [] then []
    else if Known(flags, s[0]) then Others(flags, s[Width(flags, s)..])
    else [s[0]] + Others(flags, s[1..])
  }

  function Reordered(flags: seq<Flag>, s: seq<Arg>, callee: Option<Arg>): seq<Arg> {
    Mine(flags, CalleeFirst(s, callee)) + Others(flags, CalleeFirst(s, callee))
  }

  lemma {:induction false} SplitKeeps(flags: seq<Flag>, s: seq<Arg>)
    ensures multiset(Mine(flags, s) + Others(flags, s)) == multiset(s)
    ensures |Mine(flags, s)| + |Others(flags, s)| == |s|
    decreases |s|
  {
    if s == [] {
    } else {
      var n := if Known(flags, s[0]) then Width(flags, s) else 1;
      assert s == s[..n] + s[n..];
      SplitKeeps(flags, s[n..]);
      if !Known(flags, s[0]) { assert s[..n] == [s[0]]; }
    }
  }

  lemma CalleeFirstKeeps(s: seq<Arg>, callee: Option<Arg>)
    ensures multiset(CalleeFirst(s, callee)) == multiset(s) && |CalleeFirst(s, callee)| == |s|
  {
    if callee.Some? && PlaceOf(s, callee.value) < |s| {
      var i := PlaceOf(s, callee.value);
      assert s == s[..i] + [s[i]] + s[i + 1..];
    }
  }

  /** Reordering loses and makes up nothing. */
  lemma ReorderedKeeps(flags: seq<Flag>, s: seq<Arg>, callee: Option<Arg>)
    ensures multiset(Reordered(flags, s, callee)) == multiset(s)
    ensures |Reordered(flags, s, callee)| == |s|
  {
    CalleeFirstKeeps(s, callee);
    SplitKeeps(flags, CalleeFirst(s, callee));
  }

  // Parsing.

  datatype Value = On | Number(n: int) | Text(a: Arg)

  datatype Parsed =
    | Command(rest: seq<Arg>, values: map<nat, Value>)
    | NoCommand(values: map<nat, Value>)
    | UsageError
    | UsageShown

  /** What the C library makes of a text as a number, if all of it is one. */
  type Reader = string -> Option<int>

  const INT_MIN := -32768
  const INT_MAX := 32767
  const UINT_MAX := 65535

  /** The value that a flag gets from the next argument, if that is good for it. */
  function ValueFor(f: Flag, next: Arg, read: Reader): Option<Value> {
    match f.kind
    case Bool => Some(On)
    case String => Some(Text(next))
    case Int => NumberIn(read(next.text), INT_MIN, INT_MAX)
    case UnsignedInt => NumberIn(read(next.text), 0, UINT_MAX)
    case ApiPointer => Some(On)
  }

  function NumberIn(n: Option<int>, min: int, max: int): Option<Value> {
    if n.Some? && min <= n.value <= max then Some(Number(n.value)) else None
  }

  /** Flags are taken from the front until the command to run, or until something is wrong. */
  function Parse(flags: seq<Flag>, s: seq<Arg>, read: Reader, values: map<nat, Value>): Parsed
    decreases |s|
  {
    if s == [] then NoCommand(values)
    else if !Dashed(s[0]) then Command(s, values)
    else if !Known(flags, s[0]) then UsageError
    else
      var f := Find(flags, s[0]);
      if flags[f].kind != Bool && (|s| == 1 || Dashed(s[1])) then UsageError
      else
        match ValueFor(flags[f], s[if |s| > 1 then 1 else 0], read)
        case None => UsageError
        case Some(v) =>
          Parse(flags, s[Width(flags, s)..], read, if flags[f].kind == ApiPointer then values else values[f := v])
  }

  datatype Stripped = Stripped(rest: seq<Arg>, calls: seq<(int, int)>) | Broken

  /** API flags with their pointers are taken out wherever they are. `number` is the lenient reading that
      gives 0 for what is no number. */
  function Strip(flags: seq<Flag>, s: seq<Arg>, number: string -> int): Stripped
    decreases |s|
  {
    if s == [] then Stripped([], [])
    else if IsApi(flags, s[0]) then
      if |s| == 1 || number(s[1].text) == 0 then Broken
      else Joined([], [(Find(flags, s[0]), number(s[1].text))], Strip(flags, s[2..], number))
    else Joined([s[0]], [], Strip(flags, s[1..], number))
  }

  function Joined(rest: seq<Arg>, calls: seq<(int, int)>, t: Stripped): Stripped {
    if t.Broken? then t else Stripped(rest + t.rest, calls + t.calls)
  }

  lemma JoinJoined(rest: seq<Arg>, calls: seq<(int, int)>, t: Stripped, u: Stripped)
    requires t.Stripped? && u.Stripped?
    ensures var v := Joined(rest, calls, t);
      Joined(rest, calls, Joined(t.rest, t.calls, u)) == Joined(v.rest, v.calls, u)
  {
    assert rest + (t.rest + u.rest) == (rest + t.rest) + u.rest;
    assert calls + (t.calls + u.calls) == (calls + t.calls) + u.calls;
  }

  lemma SecondOfTwo(a: seq<Arg>, b: seq<Arg>)
    requires |a| >= 2
    ensures (a + b)[0] == a[0] && (a + b)[1] == a[1] && (a + b)[2..] == a[2..] + b
  {
  }

  lemma StripFirst(flags: seq<Flag>, s: seq<Arg>, number: string -> int)
    requires s != []
    ensures !IsApi(flags, s[0]) ==> Strip(flags, s, number) == Joined([s[0]], [], Strip(flags, s[1..], number))
    ensures IsApi(flags, s[0]) && |s| > 1 && number(s[1].text) != 0 ==>
              Strip(flags, s, number) == Joined([], [(Find(flags, s[0]), number(s[1].text))], Strip(flags, s[2..], number))
  {
  }

  lemma {:induction false} StripAppend(flags: seq<Flag>, a: seq<Arg>, b: seq<Arg>, number: string -> int)
    requires Strip(flags, a, number).Stripped? && Strip(flags, b, number).Stripped?
    ensures var x := Strip(flags, a, number); Strip(flags, a + b, number) == Joined(x.rest, x.calls, Strip(flags, b, number))
    decreases |a|
  {
    var y := Strip(flags, b, number);
    if a == [] {
      NothingAdded(b);
      NothingAdded(y.rest);
      NothingAdded(y.calls);
    } else if IsApi(flags, a[0]) {
      SecondOfTwo(a, b);
      StripFirst(flags, a + b, number);
      StripAppend(flags, a[2..], b, number);
      JoinJoined([], [(Find(flags, a[0]), number(a[1].text))], Strip(flags, a[2..], number), y);
    } else {
      FirstOfTwo(a, b);
      StripFirst(flags, a + b, number);
      StripAppend(flags, a[1..], b, number);
      JoinJoined([a[0]], [], Strip(flags, a[1..], number), y);
    }
  }

  lemma {:induction false} StripNothing(flags: seq<Flag>, s: seq<Arg>, number: string -> int)
    requires forall i :: 0 <= i < |s| ==> !Known(flags, s[i])
    ensures Strip(flags, s, number) == Stripped(s, [])
    decreases |s|
  {
    if s == [] {
    } else {
      StripNothing(flags, s[1..], number);
      assert s == [s[0]] + s[1..];
    }
  }

  lemma {:induction false} ParseAppend(flags: seq<Flag>, a: seq<Arg>, b: seq<Arg>, read: Reader, values: map<nat, Value>)
    requires Parse(flags, a, read, values).NoCommand?
    ensures Parse(flags, a + b, read, values) == Parse(flags, b, read, Parse(flags, a, read, values).values)
    decreases |a|
  {
    if a == [] {
      assert a + b == b;
    } else {
      var f, n := Find(flags, a[0]), Width(flags, a);
      assert (a + b)[0] == a[0] && (|a| > 1 ==> (a + b)[1] == a[1]);
      assert Width(flags, a + b) == n && (a + b)[n..] == a[n..] + b;
      var v := ValueFor(flags[f], a[if |a| > 1 then 1 else 0], read).value;
      assert flags[f].kind == Bool ==> ValueFor(flags[f], (a + b)[if |a + b| > 1 then 1 else 0], read) == Some(v);
      ParseAppend(flags, a[n..], b, read, if flags[f].kind == ApiPointer then values else values[f := v]);
    }
  }

  /** What DoParseArgs makes of the arguments after the program's own name. */
  function ParseArgs(flags: seq<Flag>, s: seq<Arg>, read: Reader, number: string -> int): Parsed {
    match Strip(flags, s, number)
    case Broken => UsageError
    case Stripped(rest, _) => Parse(flags, rest, read, map[])
  }

  /** If the program's own flags are in order by themselves, the reordered arguments parse as those flags
      followed by a command that is exactly everything else, in order. */
  lemma ReorderedParses(flags: seq<Flag>, s: seq<Arg>, callee: Option<Arg>, read: Reader, number: string -> int)
    requires ParseArgs(flags, Mine(flags, CalleeFirst(s, callee)), read, number).NoCommand?
    requires var rest := Others(flags, CalleeFirst(s, callee)); rest != [] ==> !Dashed(rest[0])
    ensures var mine, rest := Mine(flags, CalleeFirst(s, callee)), Others(flags, CalleeFirst(s, callee));
      var values := ParseArgs(flags, mine, read, number).values;
      ParseArgs(flags, Reordered(flags, s, callee), read, number) ==
        if rest == [] then NoCommand(values) else Command(rest, values)
  {
    var mine, rest := Mine(flags, CalleeFirst(s, callee)), Others(flags, CalleeFirst(s, callee));
    StripNothing(flags, rest, number);
    StripAppend(flags, mine, rest, number);
    ParseAppend(flags, Strip(flags, mine, number).rest, rest, read, map[]);
  }

  /** The program that the user named comes first in the command, then every argument of no concern to
      this program, whether baked in or given by the user, in order. */
  lemma CommandOf(flags: seq<Flag>, baked: seq<Arg>, user: seq<Arg>, read: Reader, number: string -> int)
    requires Callee(flags, user).Some? && !Known(flags, Callee(flags, user).value)
    requires var s, callee := baked + user, Callee(flags, user);
      ParseArgs(flags, Mine(flags, CalleeFirst(s, callee)), read, number).NoCommand?
    ensures var s, callee := baked + user, Callee(flags, user);
      var i := PlaceOf(s, callee.value);
      && i < |s| && ParseArgs(flags, Reordered(flags, s, callee), read, number).Command?
      && ParseArgs(flags, Reordered(flags, s, callee), read, number).rest == [callee.value] + Others(flags, Without(s, i))
  {
    var s, callee := baked + user, Callee(flags, user);
    CalleeIsThere(flags, user);
    assert callee.value in s;
    var t := CalleeFirst(s, callee);
    assert t[1..] == Without(s, PlaceOf(s, callee.value));
    ReorderedParses(flags, s, callee, read, number);
  }

  lemma {:induction false} CalleeIsThere(flags: seq<Flag>, s: seq<Arg>)
    ensures Callee(flags, s).Some? ==> Callee(flags, s).value in s && !Dashed(Callee(flags, s).value)
    decreases |s|
  {
    if s != [] && Dashed(s[0]) && Known(flags, s[0]) {
      var n := if TakesValue(flags, s[0]) && |s| > 1 then 2 else 1;
      CalleeIsThere(flags, s[n..]);
      assert Callee(flags, s).Some? ==> Callee(flags, s).value in s[n..];
    }
  }

  /** Without anything baked in, it is the command that parsing finds. */
  lemma {:induction false} CalleeIsCommand(flags: seq<Flag>, s: seq<Arg>, read: Reader, values: map<nat, Value>)
    requires Parse(flags, s, read, values).Command?
    ensures Parse(flags, s, read, values).rest != [] && Callee(flags, s) == Some(Parse(flags, s, read, values).rest[0])
    decreases |s|
  {
    if Dashed(s[0]) {
      var f := Find(flags, s[0]);
      var v := ValueFor(flags[f], s[if |s| > 1 then 1 else 0], read).value;
      CalleeIsCommand(flags, s[Width(flags, s)..], read, if flags[f].kind == ApiPointer then values else values[f := v]);
    }
  }

  // One flag at a time.

  /** The two cases of one letter. */
  predicate CaseTwins(c: char, d: char) { 'A' <= c <= 'Z' && 'a' <= d <= 'z' && d as int - c as int == 32 }

  /** Names are the same if they differ in nothing but the case of letters. */
  lemma WithoutCase(a: string, b: string)
    ensures SameName(a, b) <==>
            |a| == |b| && forall i :: 0 <= i < |a| ==> a[i] == b[i] || CaseTwins(a[i], b[i]) || CaseTwins(b[i], a[i])
  {
    if |a| == |b| {
      forall i | 0 <= i < |a|
        ensures LowerChar(a[i]) == LowerChar(b[i]) <==>
                a[i] == b[i] || CaseTwins(a[i], b[i]) || CaseTwins(b[i], a[i])
      {
        LowerTwins(a[i], b[i]);
      }
    }
  }

  lemma LowerTwins(c: char, d: char)
    ensures LowerChar(c) == LowerChar(d) <==> c == d || CaseTwins(c, d) || CaseTwins(d, c)
  {
  }

  /** What an argument is: the first flag of its name decides, and a flag starts with a dash. */
  lemma WhichFlag(flags: seq<Flag>, a: Arg, f: nat)
    requires f < |flags| && SameName(flags[f].name, a.text) && forall i :: 0 <= i < f ==> !SameName(flags[i].name, a.text)
    ensures Find(flags, a) == f && (TakesValue(flags, a) <==> !flags[f].kind.Bool?)
    ensures IsApi(flags, a) <==> flags[f].kind.ApiPointer? && "-" <= a.text
    ensures Dashed(a) <==> "-" <= a.text
  {
    DashIsFirst(a);
  }

  /** An argument is a flag by its first character, whether there is such a flag or not. */
  lemma DashIsFirst(a: Arg)
    ensures Dashed(a) <==> "-" <= a.text
  {
    if a.text != [] {
      assert a.text == a.text[..1] + a.text[1..];
    }
  }

  predicate IsNumber(n: Option<int>, min: int, max: int) { n.Some? && min <= n.value <= max }

  /** What one flag means with the argument after it: a number must be one, and be that of a 16-bit integer. */
  lemma OneFlag(flags: seq<Flag>, a: Arg, next: Arg, read: Reader, values: map<nat, Value>)
    requires Dashed(a) && Known(flags, a)
    ensures var f, p, n := Find(flags, a), Parse(flags, [a, next], read, values), read(next.text);
      match flags[f].kind
      case Bool => Parse(flags, [a], read, values) == NoCommand(values[f := On])
      case String => p == if Dashed(next) then UsageError else NoCommand(values[f := Text(next)])
      case Int => p == if !Dashed(next) && IsNumber(n, -32768, 32767) then NoCommand(values[f := Number(n.value)])
                       else UsageError
      case UnsignedInt => p == if !Dashed(next) && IsNumber(n, 0, 65535) then NoCommand(values[f := Number(n.value)])
                               else UsageError
      case ApiPointer => p == if Dashed(next) then UsageError else NoCommand(values)
  {
    assert [a, next][2..] == [] && [a][1..] == [];
  }

  /** Where parsing ends: at an argument that is no flag, at a flag that is not known, and at one whose value is
      missing. What comes before has been taken, by ParseAppend. */
  lemma EndOfFlags(flags: seq<Flag>, a: Arg, rest: seq<Arg>, read: Reader, values: map<nat, Value>)
    ensures var p := Parse(flags, [a] + rest, read, values);
      && (!Dashed(a) ==> p == Command([a] + rest, values))
      && (Dashed(a) && !Known(flags, a) ==> p == UsageError)
      && (Dashed(a) && TakesValue(flags, a) && (rest == [] || Dashed(rest[0])) ==> p == UsageError)
  {
  }

  lemma {:induction false} NoApi(flags: seq<Flag>, s: seq<Arg>, number: string -> int)
    requires forall i :: 0 <= i < |s| ==> !IsApi(flags, s[i])
    ensures Strip(flags, s, number) == Stripped(s, [])
    decreases |s|
  {
    if s == [] {
    } else {
      NoApi(flags, s[1..], number);
      OneAndRest(s);
    }
  }

  lemma StripHead(flags: seq<Flag>, a: Arg, rest: seq<Arg>, number: string -> int)
    requires IsApi(flags, a)
    ensures Strip(flags, [a] + rest, number) ==
            if rest == [] || number(rest[0].text) == 0 then Broken
            else Joined([], [(Find(flags, a), number(rest[0].text))], Strip(flags, rest[1..], number))
  {
    if rest != [] { assert ([a] + rest)[2..] == rest[1..]; }
  }

  /** A pointer for another program is taken out wherever it is, even behind the command, and nothing else is: what
      remains is parsed as if it had not been there. */
  lemma ApiAnywhere(flags: seq<Flag>, before: seq<Arg>, a: Arg, v: Arg, after: seq<Arg>, read: Reader,
                    number: string -> int)
    requires forall i :: 0 <= i < |before| ==> !IsApi(flags, before[i])
    requires forall i :: 0 <= i < |after| ==> !IsApi(flags, after[i])
    requires IsApi(flags, a) && number(v.text) != 0
    ensures Strip(flags, before + ([a] + ([v] + after)), number)
         == Stripped(before + after, [(Find(flags, a), number(v.text))])
    ensures ParseArgs(flags, before + ([a] + ([v] + after)), read, number) == Parse(flags, before + after, read, map[])
  {
    NoApi(flags, before, number);
    NoApi(flags, after, number);
    StripHead(flags, a, [v] + after, number);
    assert ([v] + after)[1..] == after;
    NothingAdded(after);
    StripAppend(flags, before, [a] + ([v] + after), number);
    NothingAdded([(Find(flags, a), number(v.text))]);
  }

  /** It is an error if the pointer is missing or no number. */
  lemma ApiBroken(flags: seq<Flag>, a: Arg, rest: seq<Arg>, read: Reader, number: string -> int)
    requires IsApi(flags, a) && (rest == [] || number(rest[0].text) == 0)
    ensures ParseArgs(flags, [a] + rest, read, number) == UsageError
  {
    StripHead(flags, a, rest, number);
  }

  /** The last flag of these has its value. */
  predicate Whole(flags: seq<Flag>, s: seq<Arg>)
    decreases |s|
  {
    s == []
    || (if Known(flags, s[0]) then (TakesValue(flags, s[0]) ==> |s| > 1) && Whole(flags, s[Width(flags, s)..])
        else Whole(flags, s[1..]))
  }

  /** Sorting keeps the order on either side: two runs of arguments are sorted one after the other. */
  lemma {:induction false} SortedApart(flags: seq<Flag>, a: seq<Arg>, b: seq<Arg>)
    requires Whole(flags, a)
    ensures Mine(flags, a + b) == Mine(flags, a) + Mine(flags, b)
    ensures Others(flags, a + b) == Others(flags, a) + Others(flags, b)
    decreases |a|
  {
    if a == [] {
      NothingAdded(b);
      NothingAdded(Mine(flags, b));
      NothingAdded(Others(flags, b));
    } else {
      var n := if Known(flags, a[0]) then Width(flags, a) else 1;
      HeadOf(flags, a, b, n);
      SortedApart(flags, a[n..], b);
      if Known(flags, a[0]) {
        Associative(a[..n], Mine(flags, a[n..]), Mine(flags, b));
      } else {
        Associative([a[0]], Others(flags, a[1..]), Others(flags, b));
      }
    }
  }

  lemma HeadOf(flags: seq<Flag>, a: seq<Arg>, b: seq<Arg>, n: nat)
    requires a != [] && Whole(flags, a) && n == if Known(flags, a[0]) then Width(flags, a) else 1
    ensures (a + b)[0] == a[0] && (a + b)[n..] == a[n..] + b && (a + b)[..n] == a[..n]
    ensures Known(flags, a[0]) ==> Width(flags, a + b) == n
  {
  }

  /** A flag with its value is ours, and any other argument is not. */
  lemma SortedAlone(flags: seq<Flag>, a: Arg, v: Arg)
    ensures !Known(flags, a) ==> Mine(flags, [a]) == [] && Others(flags, [a]) == [a]
    ensures Known(flags, a) && !TakesValue(flags, a) ==> Mine(flags, [a]) == [a] && Others(flags, [a]) == []
    ensures Known(flags, a) && TakesValue(flags, a) ==> Mine(flags, [a, v]) == [a, v] && Others(flags, [a, v]) == []
  {
    assert [a][1..] == [] && [a, v][2..] == [] && [a, v][..2] == [a, v] && [a][..1] == [a];
    NothingAdded([a]);
    NothingAdded([a, v]);
  }

  /** These are known flags, each with its value. */
  predicate FlagsOnly(flags: seq<Flag>, s: seq<Arg>)
    decreases |s|
  {
    s == []
    || (Dashed(s[0]) && Known(flags, s[0]) && (TakesValue(flags, s[0]) ==> |s| > 1)
        && FlagsOnly(flags, s[Width(flags, s)..]))
  }

  /** The command is the first argument after known flags and their values that is no flag; an unknown flag before
      it hides it. */
  lemma {:induction false} CalleeAfterFlags(flags: seq<Flag>, s: seq<Arg>, a: Arg, rest: seq<Arg>)
    requires FlagsOnly(flags, s)
    ensures !Dashed(a) ==> Callee(flags, s + ([a] + rest)) == Some(a)
    ensures Dashed(a) && !Known(flags, a) ==> Callee(flags, s + ([a] + rest)) == None
    ensures Callee(flags, s) == None
    decreases |s|
  {
    if s == [] {
      NothingAdded([a] + rest);
    } else {
      var n, all := Width(flags, s), s + ([a] + rest);
      assert all[0] == s[0] && all[n..] == s[n..] + ([a] + rest) && Width(flags, all) == n;
      CalleeAfterFlags(flags, s[n..], a, rest);
    }
  }

  // The loops.

  method FindFlagForName(flags: seq<Flag>, a: Arg) returns (r: int)
    ensures r == Find(flags, a)
  {
    r := 0;
    while r < |flags| && !SameName(flags[r].name, a.text)
      invariant 0 <= r <= |flags| && forall i :: 0 <= i < r ==> !SameName(flags[i].name, a.text)
    {
      r := r + 1;
    }
    if r == |flags| {
      r := -1;
    }
  }

  method IdentifyCallee(flags: seq<Flag>, argv: seq<Arg>) returns (callee: Option<Arg>)
    requires argv != []
    ensures callee == Callee(flags, argv[1..])
  {
    var i := 1;
    while i < |argv|
      invariant 1 <= i && Callee(flags, argv[1..]) == Callee(flags, if i <= |argv| then argv[i..] else [])
    {
      if !Dashed(argv[i]) {
        return Some(argv[i]);
      }
      var f := FindFlagForName(flags, argv[i]);
      if f < 0 {
        return None;
      }
      if flags[f].kind != Bool {
        i := i + 1;
      }
      i := i + 1;
    }
    callee := None;
  }

  /** Moves the command to run to the front of the arguments. */
  method MoveCallee(args: array<Arg>, callee: Arg)
    requires args.Length >= 1
    modifies args
    ensures args[..] == [old(args[0])] + CalleeFirst(old(args[1..]), Some(callee))
  {
    var i := 1;
    while i < args.Length && args[i] != callee
      invariant 1 <= i <= args.Length && callee !in args[1..i]
    {
      i := i + 1;
    }
    ghost var s := args[1..];
    PlaceIs(s, callee, i - 1);
    if i < args.Length {
      forall k | 2 <= k <= i {
        args[k] := args[k - 1];
      }
      args[1] := callee;
      assert args[..] == [old(args[0])] + ([callee] + Without(s, i - 1));
    } else {
      assert args[..] == [args[0]] + s;
    }
  }

  lemma {:induction false} PlaceIs(s: seq<Arg>, a: Arg, i: nat)
    requires i <= |s| && (i < |s| ==> s[i] == a) && a !in s[..i]
    ensures PlaceOf(s, a) == i
  {
    if i == 0 {
    } else {
      assert s[0] == s[..i][0];
      assert s[1..][..i - 1] == s[..i][1..];
      PlaceIs(s[1..], a, i - 1);
    }
  }

  lemma SplitAt(flags: seq<Flag>, s: seq<Arg>, k: nat)
    requires k < |s|
    ensures var n := Width(flags, s[k..]);
      if Known(flags, s[k]) then
        Mine(flags, s[k..]) == s[k..k + n] + Mine(flags, s[k + n..]) && Others(flags, s[k..]) == Others(flags, s[k + n..])
      else Mine(flags, s[k..]) == Mine(flags, s[k + 1..]) && Others(flags, s[k..]) == [s[k]] + Others(flags, s[k + 1..])
  {
    var n := Width(flags, s[k..]);
    assert s[k..][n..] == s[k + n..] && s[k..][..n] == s[k..k + n] && s[k..][1..] == s[k + 1..];
  }

  /** The first k arguments have been sorted into these. */
  ghost predicate SplitSoFar(flags: seq<Flag>, s: seq<Arg>, k: nat, mine: seq<Arg>, others: seq<Arg>)
    requires k <= |s|
  {
    Mine(flags, s) == mine + Mine(flags, s[k..]) && Others(flags, s) == others + Others(flags, s[k..])
  }

  lemma SplitFlag(flags: seq<Flag>, s: seq<Arg>, k: nat, mine: seq<Arg>, others: seq<Arg>, next: nat, more: seq<Arg>)
    requires k < |s| && SplitSoFar(flags, s, k, mine, others) && Known(flags, s[k])
    requires next == k + Width(flags, s[k..]) && more == mine + s[k..next]
    ensures SplitSoFar(flags, s, next, more, others)
  {
    SplitAt(flags, s, k);
    assert mine + (s[k..next] + Mine(flags, s[next..])) == more + Mine(flags, s[next..]);
  }

  lemma SplitOther(flags: seq<Flag>, s: seq<Arg>, k: nat, mine: seq<Arg>, others: seq<Arg>, next: nat, more: seq<Arg>)
    requires k < |s| && SplitSoFar(flags, s, k, mine, others) && !Known(flags, s[k])
    requires next == k + 1 && more == others + [s[k]]
    ensures SplitSoFar(flags, s, next, mine, more)
  {
    SplitAt(flags, s, k);
    assert others + ([s[k]] + Others(flags, s[next..])) == more + Others(flags, s[next..]);
  }

  /** The arguments `a` during sorting of `s`: those sorted out so far, and the unsorted ones from `r` on. */
  ghost predicate Sorting(s: seq<Arg>, a: seq<Arg>, r: nat, mine: seq<Arg>, others: seq<Arg>) {
    && 1 + |mine| <= r <= |a| == |s| + 1 && 1 + |mine| + |others| == r
    && (forall k :: 0 <= k < |mine| ==> a[k + 1] == mine[k])
    && (forall k :: r <= k < |a| ==> a[k] == s[k - 1])
  }

  function Moved(a: seq<Arg>, r: nat, w: nat, n: nat): (b: seq<Arg>)
    requires w <= r && 1 <= n <= 2 && r + n <= |a|
    ensures |b| == |a|
  {
    if n == 1 then a[w := a[r]] else a[w := a[r]][w + 1 := a[r + 1]]
  }

  lemma MovedSorting(s: seq<Arg>, a: seq<Arg>, r: nat, mine: seq<Arg>, others: seq<Arg>, n: nat)
    requires Sorting(s, a, r, mine, others) && 1 <= n <= 2 && r + n <= |a|
    ensures Sorting(s, Moved(a, r, 1 + |mine|, n), r + n, mine + s[r - 1..r - 1 + n], others)
  {
  }

  /** One turn of the sorting loop: the argument at `r`, with its value if it is a flag that has one, is
      moved down to `w` or put aside. The write index never passes the read index. */
  method SortOne(flags: seq<Flag>, args: array<Arg>, r: nat, others: seq<Arg>, ghost s: seq<Arg>, ghost mine: seq<Arg>)
    returns (next: nat, others': seq<Arg>, ghost mine': seq<Arg>)
    requires Sorting(s, args[..], r, mine, others) && r < args.Length
    requires SplitSoFar(flags, s, r - 1, mine, others)
    modifies args
    ensures args[0] == old(args[0]) && r < next
    ensures Sorting(s, args[..], next, mine', others')
    ensures SplitSoFar(flags, s, next - 1, mine', others')
  {
    ghost var a := args[..];
    var w := r - |others|;
    assert args[r] == a[r] == s[r - 1];
    others', mine' := others, mine;
    var f := FindFlagForName(flags, args[r]);
    if f >= 0 {
      var n := if flags[f].kind != Bool && r + 1 < args.Length then 2 else 1;
      assert n == Width(flags, s[r - 1..]);
      MovedSorting(s, a, r, mine, others, n);
      mine' := mine + s[r - 1..r - 1 + n];
      args[w] := args[r];
      if n == 2 {
        args[w + 1] := args[r + 1];
      }
      assert args[..] == Moved(a, r, w, n);
      next := r + n;
      SplitFlag(flags, s, r - 1, mine, others, next - 1, mine');
    } else {
      others' := others + [args[r]];
      next := r + 1;
      SplitOther(flags, s, r - 1, mine, others, next - 1, others');
    }
  }

  method SplitArgs(flags: seq<Flag>, args: array<Arg>) returns (w: nat, calleeArgs: seq<Arg>)
    requires args.Length >= 1
    modifies args
    ensures w + |calleeArgs| == args.Length && w >= 1 && args[0] == old(args[0])
    ensures args[1..w] == Mine(flags, old(args[1..])) && calleeArgs == Others(flags, old(args[1..]))
  {
    ghost var s, mine := args[1..], [];
    calleeArgs := [];
    var r := 1;
    assert s[0..] == s;
    while r < args.Length
      invariant Sorting(s, args[..], r, mine, calleeArgs) && args[0] == old(args[0])
      invariant SplitSoFar(flags, s, r - 1, mine, calleeArgs)
    {
      r, calleeArgs, mine := SortOne(flags, args, r, calleeArgs, s, mine);
    }
    w := r - |calleeArgs|;
    assert s[args.Length - 1..] == [];
    assert forall k :: 1 <= k < w ==> args[k] == args[..][k];
  }

  /** Sorts the arguments in place. */
  method SortArgs(flags: seq<Flag>, args: array<Arg>)
    requires args.Length >= 1
    modifies args
    ensures args[..] == [old(args[0])] + Mine(flags, old(args[1..])) + Others(flags, old(args[1..]))
  {
    var w, calleeArgs := SplitArgs(flags, args);
    ghost var first, front := args[0], args[1..w];
    forall k | 0 <= k < |calleeArgs| {
      args[w + k] := calleeArgs[k];
    }
    assert args[..] == [first] + front + calleeArgs;
  }

  method ReorderArgsForBakedIn(flags: seq<Flag>, args: array<Arg>, callee: Option<Arg>)
    requires args.Length >= 1
    modifies args
    ensures args[..] == [old(args[0])] + Reordered(flags, old(args[1..]), callee)
  {
    ghost var s := args[1..];
    if callee.Some? {
      MoveCallee(args, callee.value);
    }
    assert args[1..] == CalleeFirst(s, callee);
    SortArgs(flags, args);
  }

  lemma JoinNothing(t: Stripped)
    ensures Joined([], [], t) == t
  {
    if t.Stripped? {
      NothingAdded(t.rest);
      NothingAdded(t.calls);
    }
  }

  lemma JoinMore(rest: seq<Arg>, calls: seq<(int, int)>, more: seq<Arg>, moreCalls: seq<(int, int)>, t: Stripped)
    ensures Joined(rest, calls, Joined(more, moreCalls, t)) == Joined(rest + more, calls + moreCalls, t)
  {
    if t.Stripped? {
      Associative(rest, more, t.rest);
      Associative(calls, moreCalls, t.calls);
    }
  }

  /** The first k arguments have been stripped to these, with these pointers found. */
  ghost predicate StripSoFar(flags: seq<Flag>, s: seq<Arg>, k: nat, rest: seq<Arg>, calls: seq<(int, int)>,
                             number: string -> int)
    requires k <= |s|
  {
    Strip(flags, s, number) == Joined(rest, calls, Strip(flags, s[k..], number))
  }

  lemma StripPlain(flags: seq<Flag>, s: seq<Arg>, k: nat, rest: seq<Arg>, calls: seq<(int, int)>, number: string -> int,
                   next: nat, more: seq<Arg>)
    requires k < |s| && StripSoFar(flags, s, k, rest, calls, number) && !IsApi(flags, s[k])
    requires next == k + 1 && more == rest + [s[k]]
    ensures StripSoFar(flags, s, next, more, calls, number)
  {
    assert s[k..][1..] == s[next..];
    NothingAdded(calls);
    JoinMore(rest, calls, [s[k]], [], Strip(flags, s[next..], number));
  }

  lemma StripApi(flags: seq<Flag>, s: seq<Arg>, k: nat, rest: seq<Arg>, calls: seq<(int, int)>, number: string -> int,
                 next: nat, more: seq<(int, int)>)
    requires k + 1 < |s| && StripSoFar(flags, s, k, rest, calls, number) && IsApi(flags, s[k]) && number(s[k + 1].text) != 0
    requires next == k + 2 && more == calls + [(Find(flags, s[k]), number(s[k + 1].text))]
    ensures StripSoFar(flags, s, next, rest, more, number)
  {
    assert s[k..][2..] == s[next..] && s[k..][1] == s[k + 1];
    NothingAdded(rest);
    JoinMore(rest, calls, [], [(Find(flags, s[k]), number(s[k + 1].text))], Strip(flags, s[next..], number));
  }

  lemma StripBroken(flags: seq<Flag>, s: seq<Arg>, k: nat, rest: seq<Arg>, calls: seq<(int, int)>, number: string -> int)
    requires k < |s| && StripSoFar(flags, s, k, rest, calls, number) && IsApi(flags, s[k])
    requires k + 1 == |s| || number(s[k + 1].text) == 0
    ensures Strip(flags, s, number).Broken?
  {
    assert k + 1 < |s| ==> s[k..][1] == s[k + 1];
  }

  lemma StripStart(flags: seq<Flag>, s: seq<Arg>, number: string -> int)
    ensures StripSoFar(flags, s, 0, [], [], number)
  {
    assert s[0..] == s;
    JoinNothing(Strip(flags, s, number));
  }

  lemma StripDone(flags: seq<Flag>, s: seq<Arg>, k: nat, rest: seq<Arg>, calls: seq<(int, int)>, number: string -> int)
    requires k == |s| && StripSoFar(flags, s, k, rest, calls, number)
    ensures Strip(flags, s, number) == Stripped(rest, calls)
  {
    assert s[k..] == [];
    NothingAdded(rest);
    NothingAdded(calls);
  }

  /** The arguments `a` while `s` is being stripped: those kept so far, and the others from `i` on. */
  ghost predicate Closing(s: seq<Arg>, a: seq<Arg>, i: nat, rest: seq<Arg>) {
    && 1 + |rest| <= i <= |a| == |s| + 1
    && (forall k :: 0 <= k < |rest| ==> a[k + 1] == rest[k])
    && (forall k :: i <= k < |a| ==> a[k] == s[k - 1])
  }

  lemma ClosingKept(s: seq<Arg>, a: seq<Arg>, i: nat, rest: seq<Arg>)
    requires Closing(s, a, i, rest) && i < |a|
    ensures a[i] == s[i - 1] && Closing(s, a[1 + |rest| := a[i]], i + 1, rest + [a[i]])
    ensures i + 1 < |a| ==> a[i + 1] == s[i] && Closing(s, a, i + 2, rest)
  {
  }

  lemma ClosingRest(s: seq<Arg>, a: seq<Arg>, i: nat, rest: seq<Arg>)
    requires Closing(s, a, i, rest)
    ensures a[1..1 + |rest|] == rest
  {
  }

  /** Takes out the API flags in place, closing up the rest. */
  method StripAPIPointers(flags: seq<Flag>, argv: array<Arg>, number: string -> int)
    returns (ok: bool, argc: nat, calls: seq<(int, int)>)
    requires argv.Length >= 1
    modifies argv
    ensures argv[0] == old(argv[0]) && ok == Strip(flags, old(argv[1..]), number).Stripped?
    ensures ok ==> 1 <= argc <= argv.Length && Strip(flags, old(argv[1..]), number) == Stripped(argv[1..argc], calls)
  {
    ghost var s, rest := argv[1..], [];
    var i := 1;
    calls, argc := [], 1;
    StripStart(flags, s, number);
    while i < argv.Length
      invariant Closing(s, argv[..], i, rest) && argc == 1 + |rest| && argv[0] == old(argv[0])
      invariant StripSoFar(flags, s, i - 1, rest, calls, number)
      decreases argv.Length - i
    {
      ghost var k, a := i - 1, argv[..];
      var arg := argv[i];
      ClosingKept(s, a, i, rest);
      assert arg == s[k] && (i + 1 < argv.Length ==> argv[i + 1] == s[k + 1]);
      var f := FindFlagForName(flags, arg);
      if Dashed(arg) && f >= 0 && flags[f].kind == ApiPointer {
        if i + 1 == argv.Length || number(argv[i + 1].text) == 0 {
          StripBroken(flags, s, k, rest, calls, number);
          ok := false;
          return;
        }
        ghost var before := calls;
        calls := calls + [(f, number(argv[i + 1].text))];
        i := i + 2;
        StripApi(flags, s, k, rest, before, number, i - 1, calls);
      } else {
        argv[argc] := arg;
        assert argv[..] == a[1 + |rest| := a[k + 1]];
        argc := argc + 1;
        i := i + 1;
        StripPlain(flags, s, k, rest, calls, number, i - 1, rest + [arg]);
        rest := rest + [arg];
      }
    }
    ClosingRest(s, argv[..], i, rest);
    assert argv[..][1..argc] == argv[1..argc];
    StripDone(flags, s, i - 1, rest, calls, number);
    ok := true;
  }

  lemma ParseFlag(flags: seq<Flag>, s: seq<Arg>, read: Reader, values: map<nat, Value>)
    requires s != [] && Dashed(s[0]) && Known(flags, s[0])
    requires flags[Find(flags, s[0])].kind != Bool ==> |s| > 1 && !Dashed(s[1])
    ensures var f := Find(flags, s[0]);
      var v := ValueFor(flags[f], s[if |s| > 1 then 1 else 0], read);
      Parse(flags, s, read, values) == if v.None? then UsageError
        else Parse(flags, s[Width(flags, s)..], read, if flags[f].kind == ApiPointer then values else values[f := v.value])
  {
  }

  /** The parsing loop. */
  method ParseFlags(flags: seq<Flag>, args: seq<Arg>, read: Reader) returns (p: Parsed)
    ensures p == Parse(flags, args, read, map[])
  {
    var values: map<nat, Value> := map[];
    var i := 0;
    assert args[0..] == args;
    while i < |args|
      invariant 0 <= i <= |args| && Parse(flags, args, read, map[]) == Parse(flags, args[i..], read, values)
    {
      ghost var left := args[i..];
      assert args[i] == left[0] && (i + 1 < |args| ==> args[i + 1] == left[1]);
      if !Dashed(args[i]) {
        return Command(args[i..], values);
      }
      var f := FindFlagForName(flags, args[i]);
      if f < 0 || (flags[f].kind != Bool && (i + 1 >= |args| || Dashed(args[i + 1]))) {
        return UsageError;
      }
      ParseFlag(flags, left, read, values);
      var v := ValueFor(flags[f], args[if i + 1 < |args| then i + 1 else i], read);
      if v.None? {
        return UsageError;
      }
      assert left[Width(flags, left)..] == args[i + Width(flags, left)..];
      if flags[f].kind != ApiPointer {
        values := values[f := v.value];
      }
      if flags[f].kind != Bool {
        i := i + 1;
      }
      i := i + 1;
    }
    p := NoCommand(values);
  }

  /** Parses a whole command line. */
  method DoParseArgs(flags: seq<Flag>, argv: array<Arg>, read: Reader, number: string -> int) returns (p: Parsed)
    requires argv.Length >= 1
    modifies argv
    ensures p == if argv.Length == 1 then UsageShown else ParseArgs(flags, old(argv[1..]), read, number)
  {
    if argv.Length == 1 {
      return UsageShown;
    }
    var ok, argc, _ := StripAPIPointers(flags, argv, number);
    if !ok {
      return UsageError;
    }
    p := ParseFlags(flags, argv[1..argc], read);
  }
}
