/** Temporary names: `<file>.tmp.<pid>.<nanos>.<counter>`, all numbers in decimal. */
module TempNames {

  type Name = string

  function Digit(d: nat): char
    requires d < 10
  {
    ['0', '1', '2', '3', '4', '5', '6', '7', '8', '9'][d]
  }

  function Decimal(n: nat): (s: string)
    ensures |s| >= 1
  {
    if n < 10 then [Digit(n)] else Decimal(n / 10) + [Digit(n % 10)]
  }

  ghost predicate Undotted(s: string) {
    forall i :: 0 <= i < |s| ==> s[i] != '.'
  }

  lemma {:induction false} DecimalUndotted(n: nat)
    ensures Undotted(Decimal(n))
  {
    if n >= 10 { DecimalUndotted(n / 10); }
  }

  lemma {:induction false} DecimalInjective(m: nat, n: nat)
    requires Decimal(m) == Decimal(n)
    ensures m == n
    decreases m
  {
    var s, t := Decimal(m), Decimal(n);
    assert s[|s| - 1] == Digit(m % 10) && t[|t| - 1] == Digit(n % 10);
    if m >= 10 && n >= 10 {
      assert s[..|s| - 1] == Decimal(m / 10) && t[..|t| - 1] == Decimal(n / 10);
      DecimalInjective(m / 10, n / 10);
    }
  }

  /** The number a string of decimal digits denotes. */
  function Denoted(s: string): nat {
    if s == [] then 0
    else 10 * Denoted(s[..|s| - 1]) + (if '0' <= s[|s| - 1] <= '9' then (s[|s| - 1] - '0') as nat else 0)
  }

  /** Numbers are written in digits that denote them, without leading zeros. */
  lemma {:induction false} DecimalDenotes(n: nat)
    ensures Denoted(Decimal(n)) == n
    ensures forall i :: 0 <= i < |Decimal(n)| ==> '0' <= Decimal(n)[i] <= '9'
    ensures n > 0 ==> Decimal(n)[0] != '0'
    ensures Decimal(0) == "0"
  {
    var s := Decimal(n);
    if n >= 10 {
      DecimalDenotes(n / 10);
      assert s[..|s| - 1] == Decimal(n / 10);
    } else {
      assert s[..0] == [];
    }
  }

  /** Splitting at the last dot is unambiguous. */
  lemma LastDot(a: string, c: string, b: string, d: string)
    requires Undotted(c) && Undotted(d)
    requires a + "." + c == b + "." + d
    ensures a == b && c == d
  {
    var s := a + "." + c;
    assert s[|a|] == '.' && s[|b|] == '.';
    assert forall k :: |a| < k < |s| ==> s[k] == c[k - |a| - 1];
    assert forall k :: |b| < k < |s| ==> s[k] == d[k - |b| - 1];
    assert a == s[..|a|] && b == s[..|b|];
    assert c == s[|a| + 1..] && d == s[|b| + 1..];
  }

  function TempName(file: Name, pid: nat, nanos: nat, counter: nat): Name {
    file + ".tmp" + "." + Decimal(pid) + "." + Decimal(nanos) + "." + Decimal(counter)
  }

  /** The parts in their order, each number as its decimal digits. */
  lemma TempNameSpelled(file: Name, p: string, t: string, c: string, pid: nat, nanos: nat, counter: nat)
    requires p == Decimal(pid) && t == Decimal(nanos) && c == Decimal(counter)
    ensures TempName(file, pid, nanos, counter) == file + ".tmp." + p + "." + t + "." + c
  {
    hide Decimal;
    assert ".tmp" + "." == ".tmp.";
    assert file + ".tmp" + "." == file + ".tmp.";
  }

  /** The scheme this one replaced. */
  function OldTempName(file: Name, pid: nat): Name {
    file + ".tmp" + "." + Decimal(pid)
  }

  /** Two calls get the same temporary name only by agreeing on all four parts. */
  lemma TempNameInjective(file: Name, pid: nat, nanos: nat, counter: nat,
                          file': Name, pid': nat, nanos': nat, counter': nat)
    ensures TempName(file, pid, nanos, counter) == TempName(file', pid', nanos', counter')
       <==> file == file' && pid == pid' && nanos == nanos' && counter == counter'
  {
    hide Decimal;
    if TempName(file, pid, nanos, counter) == TempName(file', pid', nanos', counter') {
      var x, x' := file + ".tmp", file' + ".tmp";
      var y, y' := x + "." + Decimal(pid), x' + "." + Decimal(pid');
      var z, z' := y + "." + Decimal(nanos), y' + "." + Decimal(nanos');
      DecimalUndotted(counter); DecimalUndotted(counter');
      LastDot(z, Decimal(counter), z', Decimal(counter'));
      DecimalInjective(counter, counter');
      DecimalUndotted(nanos); DecimalUndotted(nanos');
      LastDot(y, Decimal(nanos), y', Decimal(nanos'));
      DecimalInjective(nanos, nanos');
      DecimalUndotted(pid); DecimalUndotted(pid');
      LastDot(x, Decimal(pid), x', Decimal(pid'));
      DecimalInjective(pid, pid');
      assert file == x[..|x| - 4] && file' == x'[..|x'| - 4];
    }
  }

  ghost predicate TempShaped(name: Name) {
    exists file: Name, pid: nat, nanos: nat, counter: nat :: name == TempName(file, pid, nanos, counter)
  }
}
