/** The vhosts of src/gen_vhostonreg.c: how they are built in their buffer, and when two of them are
    the same. */
module Vhost {
  import opened Options
  import opened CStrings
  import opened Decimals

  const COUNTER_RANGE := 100000

  // The length of "-%05d" for a counter in range.
  const NUMBER_LENGTH := 6

  predicate ValidChar(c: char) {
    IsAlnum(c) || c == '-'
  }

  predicate AllValid(s: string) {
    forall i :: 0 <= i < |s| ==> ValidChar(s[i])
  }

  function ValidChars(s: string): (r: string)
    ensures |r| <= |s| && AllValid(r)
    ensures |r| == |s| <==> AllValid(s)
    ensures AllValid(s) ==> r == s
  {
    if s == "" then ""
    else
      var rest := ValidChars(s[1..]);
      assert AllValid(s) ==> AllValid(s[1..]);
      if ValidChar(s[0]) then [s[0]] + rest else rest
  }

  function Take(s: string, n: nat): (r: string)
    ensures |r| <= n && (AllValid(s) ==> AllValid(r))
  {
    if |s| <= n then s else s[..n]
  }

  /** The room for the account name, or less than 9 when there is none. */
  function Room(suffix: string, hostLen: nat): int {
    hostLen - 1 - |suffix|
  }

  predicate HasRoom(suffix: string, hostLen: nat) {
    Room(suffix, hostLen) >= 9
  }

  /** The account name serves as it is. */
  predicate Direct(name: string, max: nat) {
    AllValid(name) && |name| <= max
  }

  function Number(counter: nat): (s: string)
    requires counter < COUNTER_RANGE
    ensures |s| == NUMBER_LENGTH && AllValid(s)
  {
    var tens := counter / 10;
    var hundreds := tens / 10;
    var thousands := hundreds / 10;
    ['-', Digit(thousands / 10), Digit(thousands % 10), Digit(hundreds % 10), Digit(tens % 10), Digit(counter % 10)]
  }

  function Stem(name: string, max: nat): string
    requires max >= NUMBER_LENGTH
  {
    Take(ValidChars(name), max - NUMBER_LENGTH)
  }

  function Head(name: string, max: nat, counter: nat): (s: string)
    requires max >= NUMBER_LENGTH && counter < COUNTER_RANGE
    ensures |s| <= max && AllValid(s)
  {
    if Direct(name, max) then name else Stem(name, max) + Number(counter)
  }

  /** The vhost of an account. */
  function Host(name: string, suffix: string, hostLen: nat, counter: nat): (s: string)
    requires HasRoom(suffix, hostLen) && counter < COUNTER_RANGE
    ensures |s| <= hostLen
  {
    Head(name, Room(suffix, hostLen), counter) + "." + suffix
  }

  function Next(counter: nat): nat {
    if counter + 1 >= COUNTER_RANGE then 0 else counter + 1
  }

  /** The counter after the vhost of an account was built. */
  function After(name: string, suffix: string, hostLen: nat, counter: nat): (c: nat)
    requires counter < COUNTER_RANGE
    ensures c < COUNTER_RANGE
  {
    if HasRoom(suffix, hostLen) && !Direct(name, Room(suffix, hostLen)) then Next(counter) else counter
  }

  // ---------------------------------------------------------------- building in place

  lemma {:induction false} ValidCharsAppended(a: string, c: char)
    ensures ValidChars(a + [c]) == if ValidChar(c) then ValidChars(a) + [c] else ValidChars(a)
  {
    if a == "" {
      assert a + [c] == [c];
    } else {
      assert (a + [c])[0] == a[0] && (a + [c])[1..] == a[1..] + [c];
      ValidCharsAppended(a[1..], c);
    }
  }

  lemma {:induction false} KeepNext(name: string, p: nat)
    requires p < |name|
    ensures ValidChars(name[..p + 1]) == ValidChars(name[..p]) + if ValidChar(name[p]) then [name[p]] else []
    ensures AllValid(name[..p + 1]) <==> AllValid(name[..p]) && ValidChar(name[p])
  {
    assert name[..p + 1] == name[..p] + [name[p]];
    ValidCharsAppended(name[..p], name[p]);
  }

  /** More of the name only adds to what is kept. */
  lemma {:induction false} ValidCharsPrefix(name: string, p: nat)
    requires p <= |name|
    ensures ValidChars(name[..p]) <= ValidChars(name)
    ensures p == |name| ==> name[..p] == name
    decreases |name| - p
  {
    if p == |name| {
      assert name[..p] == name;
    } else {
      KeepNext(name, p);
      ValidCharsPrefix(name, p + 1);
    }
  }

  class Registrar {
    // The static counter, and the fixed settings of the server.
    var counter: nat
    const hostLen: nat
    const suffix: CString

    /** mod_init: the counter starts at the shifted time, whose C remainder may be negative. */
    constructor (hostLen: nat, suffix: CString, shiftedTime: int)
      ensures Valid() && this.hostLen == hostLen && this.suffix == suffix
      ensures counter == shiftedTime % COUNTER_RANGE
    {
      this.hostLen, this.suffix := hostLen, suffix;
      var c := CRemainder(shiftedTime, COUNTER_RANGE);
      if c < 0 {
        c := c + COUNTER_RANGE;
      }
      counter := c;
      RemainderRepaired(shiftedTime);
    }

    ghost predicate Valid()
      reads this
    {
      counter < COUNTER_RANGE
    }

    /** user_add_host: the cloak set for the account, if there is room for one. */
    method UserAddHost(name: CString) returns (cloak: Option<string>)
      requires Valid()
      modifies this
      ensures Valid() && counter == After(name, suffix, hostLen, old(counter))
      ensures cloak == if HasRoom(suffix, hostLen) then Some(Host(name, suffix, hostLen, old(counter))) else None
      ensures cloak == None <==> hostLen - 1 - |suffix| < 9
    {
      var maxlen1: int := hostLen - 1 - |suffix|;
      if maxlen1 < 9 {
        return None;
      }
      var newhost := new char[hostLen + 1];
      var i := MakeHead(newhost, name, maxlen1);
      i := Concatenate(newhost, ".", i);
      i := Concatenate(newhost, suffix, i);
      cloak := Some(newhost[..i]);
    }

    /** The first part of the vhost: the kept characters, with the number behind them if needed. */
    method MakeHead(newhost: array<char>, name: CString, maxlen1: nat) returns (i: nat)
      requires Valid() && 9 <= maxlen1 < newhost.Length
      modifies this, newhost
      ensures Valid() && i <= maxlen1 && newhost[..i] == Head(name, maxlen1, old(counter))
      ensures newhost[i] == '\0' && forall k :: 0 <= k < i ==> newhost[k] != '\0'
      ensures counter == if Direct(name, maxlen1) then old(counter) else Next(old(counter))
    {
      var direct;
      i, direct := CopyName(newhost, name, maxlen1);
      if !direct {
        if i > maxlen1 - NUMBER_LENGTH {
          i := maxlen1 - NUMBER_LENGTH;
        }
        assert newhost[..i] == Stem(name, maxlen1);
        i := Append(newhost, i, Number(counter));
        counter := counter + 1;
        if counter >= COUNTER_RANGE {
          counter := 0;
        }
      } else {
        newhost[i] := '\0';
      }
      ghost var head := Head(name, maxlen1, old(counter));
      assert forall k :: 0 <= k < i ==> newhost[k] == head[k] && ValidChar(head[k]);
    }

    /** The loop over the name: valid characters are kept until there is no more room. */
    method CopyName(newhost: array<char>, name: CString, maxlen1: nat) returns (i: nat, direct: bool)
      requires maxlen1 < newhost.Length
      modifies newhost
      ensures i <= maxlen1 && newhost[..i] == Take(ValidChars(name), maxlen1)
      ensures direct <==> Direct(name, maxlen1)
    {
      var p := 0;
      var invalidchar := false;
      ghost var kept := "";
      i := 0;
      while i < maxlen1 && p < |name|
        invariant 0 <= i <= maxlen1 && 0 <= p <= |name|
        invariant newhost[..i] == kept == ValidChars(name[..p])
        invariant invalidchar <==> !AllValid(name[..p])
      {
        KeepNext(name, p);
        kept := ValidChars(name[..p + 1]);
        if IsAlnum(name[p]) || name[p] == '-' {
          newhost[i] := name[p];
          i := i + 1;
        } else {
          invalidchar := true;
        }
        p := p + 1;
      }
      ValidCharsPrefix(name, p);
      direct := !invalidchar && p == |name|;
    }
  }

  /** The C operator %, which truncates toward zero. */
  function CRemainder(x: int, m: nat): int
    requires m > 0
  {
    if x >= 0 then x % m else -(-x % m)
  }

  /** Adding the modulus to a negative remainder gives the mathematical one. */
  lemma {:induction false} RemainderRepaired(x: int)
    ensures var c := CRemainder(x, COUNTER_RANGE);
      (if c < 0 then c + COUNTER_RANGE else c) == x % COUNTER_RANGE
  {
    if x < 0 {
      var (k, r) := (-x / COUNTER_RANGE, -x % COUNTER_RANGE);
      assert x == COUNTER_RANGE * (-k) - r;
    }
  }

  /** mowgli_strlcat finds the end of the text, of the given length, by its NUL. */
  method Concatenate(buf: array<char>, src: CString, ghost len: nat) returns (n: nat)
    requires len < buf.Length && buf[len] == '\0' && forall k :: 0 <= k < len ==> buf[k] != '\0'
    modifies buf
    ensures len <= n < buf.Length && buf[n] == '\0' && forall k :: 0 <= k < n ==> buf[k] != '\0'
    ensures buf[..n] == old(buf[..len]) + Take(src, buf.Length - 1 - len)
  {
    n := 0;
    while buf[n] != '\0'
      invariant n <= len
      decreases len - n
    {
      n := n + 1;
    }
    ghost var text := buf[..len] + Take(src, buf.Length - 1 - len);
    n := Append(buf, n, src);
    assert forall k :: 0 <= k < n ==> buf[k] == text[k] && text[k] != '\0';
  }

  /** snprintf at the end of the text: as much of src as leaves room for the NUL. */
  method Append(buf: array<char>, len: nat, src: string) returns (n: nat)
    requires len < buf.Length
    modifies buf
    ensures len <= n < buf.Length && buf[n] == '\0'
    ensures buf[..n] == old(buf[..len]) + Take(src, buf.Length - 1 - len)
  {
    n := len;
    var k := 0;
    while k < |src| && n < buf.Length - 1
      invariant 0 <= k <= |src| && n == len + k < buf.Length
      invariant buf[..n] == old(buf[..len]) + src[..k]
    {
      buf[n] := src[k];
      n := n + 1;
      k := k + 1;
    }
    buf[n] := '\0';
  }

  // ---------------------------------------------------------------- what a vhost looks like

  /** The head of a vhost is the account name exactly when the name is valid and fits. */
  lemma {:induction false} HeadIsNameExactlyWhenDirect(name: string, suffix: string, hostLen: nat, counter: nat)
    requires HasRoom(suffix, hostLen) && counter < COUNTER_RANGE
    ensures Host(name, suffix, hostLen, counter) == name + "." + suffix <==> Direct(name, Room(suffix, hostLen))
  {
    SameHeads(Head(name, Room(suffix, hostLen), counter), name, "." + suffix);
    assert Host(name, suffix, hostLen, counter) == Head(name, Room(suffix, hostLen), counter) + ("." + suffix);
    assert name + "." + suffix == name + ("." + suffix);
  }

  /** The vhost of a name that is not direct keeps as many of its letters, digits and hyphens as leave room
      for a hyphen and five digits: all of them if they fit, otherwise the head is as long as it can be. */
  lemma {:induction false} NumberedKeepsWhatFits(name: string, suffix: string, hostLen: nat, counter: nat)
    requires hostLen - 1 - |suffix| >= 9 && counter < 100000
    requires !AllValid(name) || |name| > hostLen - 1 - |suffix|
    ensures var (max, kept) := (hostLen - 1 - |suffix|, ValidChars(name));
      var fits := if |kept| <= max - 6 then |kept| else max - 6;
      Host(name, suffix, hostLen, counter) == kept[..fits] + Number(counter) + "." + suffix
  {
    var (max, kept) := (hostLen - 1 - |suffix|, ValidChars(name));
    if |kept| <= max - 6 { assert kept[..|kept|] == kept; }
    assert !Direct(name, max);
  }

  /** What is kept of a name: of two parts, what is kept of each; of one character, it or nothing. */
  lemma {:induction false} KeptOfParts(a: string, b: string)
    ensures ValidChars(a + b) == ValidChars(a) + ValidChars(b)
  {
    if a == "" {
      assert a + b == b;
    } else {
      FrontOf(a, b);
      KeptOfParts(a[1..], b);
    }
  }

  lemma KeptOfOne(c: char)
    ensures ValidChars([c]) == if 'a' <= c <= 'z' || 'A' <= c <= 'Z' || '0' <= c <= '9' || c == '-' then [c] else ""
  {
    assert [c][1..] == "";
  }

  lemma CounterWraps(c: nat)
    requires c < 100000
    ensures Next(c) == (c + 1) % 100000
  {
  }

  lemma {:induction false} SameHeads(a: string, b: string, tail: string)
    ensures a + tail == b + tail <==> a == b
  {
    if a + tail == b + tail {
      assert |a| == |b|;
      assert a == (a + tail)[..|a|] && b == (b + tail)[..|b|];
    }
  }

  /** Five digits give the number away. */
  lemma {:induction false} NumberInjective(c: nat, d: nat)
    requires c < COUNTER_RANGE && d < COUNTER_RANGE && Number(c) == Number(d)
    ensures c == d
  {
    FiveDigits(c);
    FiveDigits(d);
    assert forall i :: 0 <= i < NUMBER_LENGTH ==> Number(c)[i] == Number(d)[i];
  }

  lemma {:induction false} FiveDigits(c: nat)
    requires c < COUNTER_RANGE
    ensures Number(c)[0] == '-'
    ensures var s := Number(c);
      c == 10000 * DigitValue(s[1]) + 1000 * DigitValue(s[2]) + 100 * DigitValue(s[3])
           + 10 * DigitValue(s[4]) + DigitValue(s[5])
  {
  }

  lemma {:induction false} SameEnds(a: string, b: string, m: string, n: string)
    requires |m| == |n|
    ensures a + m == b + n <==> a == b && m == n
  {
    if a + m == b + n {
      assert |a| == |b|;
      assert a == (a + m)[..|a|] && b == (b + n)[..|b|];
      assert m == (a + m)[|a|..] && n == (b + n)[|b|..];
    }
  }

  /** Two accounts get the same vhost: direct ones for the same name, numbered ones for the same
      counter and stem, and a mixed pair when one account is named like the other's numbered head. */
  predicate Clash(name: string, c: nat, name': string, c': nat, max: nat)
    requires max >= NUMBER_LENGTH && c < COUNTER_RANGE && c' < COUNTER_RANGE
  {
    if Direct(name, max) && Direct(name', max) then name == name'
    else if Direct(name, max) then name == Stem(name', max) + Number(c')
    else if Direct(name', max) then name' == Stem(name, max) + Number(c)
    else c == c' && Stem(name, max) == Stem(name', max)
  }

  lemma {:induction false} SameVhostExactlyWhenClash(name: string, c: nat, name': string, c': nat,
      suffix: string, hostLen: nat)
    requires HasRoom(suffix, hostLen) && c < COUNTER_RANGE && c' < COUNTER_RANGE
    ensures Host(name, suffix, hostLen, c) == Host(name', suffix, hostLen, c')
            <==> Clash(name, c, name', c', Room(suffix, hostLen))
  {
    var max := Room(suffix, hostLen);
    var (h, h') := (Head(name, max, c), Head(name', max, c'));
    assert Host(name, suffix, hostLen, c) == h + ("." + suffix);
    assert Host(name', suffix, hostLen, c') == h' + ("." + suffix);
    SameHeads(h, h', "." + suffix);
    SameEnds(Stem(name, max), Stem(name', max), Number(c), Number(c'));
    if Number(c) == Number(c') { NumberInjective(c, c'); }
  }

  /** The number does not ensure uniqueness: bob_ registered at counter 7 gets the vhost of an
      account that is named bob-00007. */
  lemma NumberedMeetsDirect()
    ensures Host("bob_", "users", 63, 7) == Host("bob-00007", "users", 63, 8) == "bob-00007.users"
  {
    BobKept();
    assert Number(7) == "-00007";
    assert Stem("bob_", 57) + Number(7) == "bob-00007";
    assert AllValid("bob-00007");
  }

  lemma BobKept()
    ensures !AllValid("bob_") && ValidChars("bob_") == "bob"
  {
    assert "bob_"[3] == '_';
    assert ValidChars("_") == "" && ValidChars("b_") == "b" && ValidChars("ob_") == "ob";
    assert "bob_"[1..] == "ob_" && "ob_"[1..] == "b_" && "b_"[1..] == "_";
  }

  // ---------------------------------------------------------------- runs

  /** The counter before the k-th account of a run. */
  function CounterAt(names: seq<string>, k: nat, suffix: string, hostLen: nat, start: nat): (c: nat)
    requires k <= |names| && start < COUNTER_RANGE
    ensures c < COUNTER_RANGE
  {
    if k == 0 then start
    else After(names[k - 1], suffix, hostLen, CounterAt(names, k - 1, suffix, hostLen, start))
  }

  /** How many of the accounts from i up to j get a number. */
  function Numbered(names: seq<string>, i: nat, j: nat, max: nat): nat
    requires i <= j <= |names|
  {
    if i == j then 0 else Numbered(names, i, j - 1, max) + if Direct(names[j - 1], max) then 0 else 1
  }

  lemma {:induction false} CounterMovesOn(names: seq<string>, i: nat, j: nat, suffix: string, hostLen: nat, start: nat)
    requires i <= j <= |names| && start < COUNTER_RANGE && HasRoom(suffix, hostLen)
    ensures CounterAt(names, j, suffix, hostLen, start) ==
            (CounterAt(names, i, suffix, hostLen, start) + Numbered(names, i, j, Room(suffix, hostLen))) % COUNTER_RANGE
  {
    if i < j {
      CounterMovesOn(names, i, j - 1, suffix, hostLen, start);
    }
  }

  lemma {:induction false} BackAgain(c: nat, n: nat)
    requires c < COUNTER_RANGE
    ensures (c + n) % COUNTER_RANGE == c <==> n % COUNTER_RANGE == 0
  {
  }

  lemma {:induction false} SameCounter(names: seq<string>, i: nat, j: nat, suffix: string, hostLen: nat, start: nat)
    requires i <= j <= |names| && start < COUNTER_RANGE && HasRoom(suffix, hostLen)
    ensures CounterAt(names, i, suffix, hostLen, start) == CounterAt(names, j, suffix, hostLen, start)
       <==> Numbered(names, i, j, Room(suffix, hostLen)) % COUNTER_RANGE == 0
  {
    CounterMovesOn(names, i, j, suffix, hostLen, start);
    BackAgain(CounterAt(names, i, suffix, hostLen, start), Numbered(names, i, j, Room(suffix, hostLen)));
  }

  /** Two numbered accounts of a run get the same vhost exactly when their stems agree and a multiple
      of 100000 numbers were given out between them, whatever accounts came in between. */
  lemma {:induction false} NumberedVhostsInARun(names: seq<string>, i: nat, j: nat,
      suffix: string, hostLen: nat, start: nat)
    requires i < j < |names| && start < COUNTER_RANGE && HasRoom(suffix, hostLen)
    requires !Direct(names[i], Room(suffix, hostLen)) && !Direct(names[j], Room(suffix, hostLen))
    ensures var max := Room(suffix, hostLen);
      Host(names[i], suffix, hostLen, CounterAt(names, i, suffix, hostLen, start)) ==
      Host(names[j], suffix, hostLen, CounterAt(names, j, suffix, hostLen, start))
      <==> Numbered(names, i, j, max) % COUNTER_RANGE == 0 && Stem(names[i], max) == Stem(names[j], max)
  {
    var (c, d) := (CounterAt(names, i, suffix, hostLen, start), CounterAt(names, j, suffix, hostLen, start));
    SameCounter(names, i, j, suffix, hostLen, start);
    SameVhostExactlyWhenClash(names[i], c, names[j], d, suffix, hostLen);
  }

  lemma {:induction false} NumberedCounts(names: seq<string>, i: nat, j: nat, max: nat)
    requires i < j <= |names| && !Direct(names[i], max)
    ensures 0 < Numbered(names, i, j, max)
  {
    if i < j - 1 { NumberedCounts(names, i, j - 1, max); }
  }

  /** Any 100000 consecutive numbered vhosts are pairwise different. */
  lemma {:induction false} HundredThousandDiffer(names: seq<string>, i: nat, j: nat,
      suffix: string, hostLen: nat, start: nat)
    requires i < j < |names| && start < COUNTER_RANGE && HasRoom(suffix, hostLen)
    requires !Direct(names[i], Room(suffix, hostLen)) && !Direct(names[j], Room(suffix, hostLen))
    requires Numbered(names, i, j, Room(suffix, hostLen)) < COUNTER_RANGE
    ensures Host(names[i], suffix, hostLen, CounterAt(names, i, suffix, hostLen, start)) !=
            Host(names[j], suffix, hostLen, CounterAt(names, j, suffix, hostLen, start))
  {
    NumberedCounts(names, i, j, Room(suffix, hostLen));
    NumberedVhostsInARun(names, i, j, suffix, hostLen, start);
  }
}
