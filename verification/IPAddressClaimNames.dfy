/** The name of the IPAddressClaim of one pool slot of a VM, and the parser that undoes it from the right. */
module IPAddressClaimNames {
  import opened Common

  function Digit(n: nat): char
    requires n < 10
  {
    "0123456789"[n]
  }

  /** `%d` of a non-negative integer. */
  function Decimal(n: nat): string {
    if n < 10 then [Digit(n)] else Decimal(n / 10) + [Digit(n % 10)]
  }

  function IPAddressClaimName(vmName: string, deviceIndex: nat, poolIndex: nat): string {
    vmName + "-" + Decimal(deviceIndex) + "-" + Decimal(poolIndex)
  }

  function DigitValue(c: char): nat {
    if '0' <= c <= '9' then c as int - '0' as int else 0
  }

  function Value(digits: string): nat {
    if digits == [] then 0 else 10 * Value(digits[..|digits| - 1]) + DigitValue(digits[|digits| - 1])
  }

  /** The part before the last dash and the part after it. */
  function SplitLast(s: string): Option<(string, string)> {
    if s == [] then None
    else if s[|s| - 1] == '-' then Some((s[..|s| - 1], []))
    else
      match SplitLast(s[..|s| - 1])
      case None => None
      case Some((before, after)) => Some((before, after + [s[|s| - 1]]))
  }

  function ParseClaimName(s: string): Option<(string, nat, nat)> {
    match SplitLast(s)
    case None => None
    case Some((front, pool)) =>
      match SplitLast(front)
      case None => None
      case Some((vm, device)) => Some((vm, Value(device), Value(pool)))
  }

  lemma {:induction false} DecimalValue(n: nat)
    ensures Value(Decimal(n)) == n && '-' !in Decimal(n)
  {
    if n < 10 {
      assert Decimal(n)[..0] == [];
    } else {
      DecimalValue(n / 10);
      var s := Decimal(n);
      assert s[..|s| - 1] == Decimal(n / 10);
    }
  }

  lemma {:induction false} SplitLastPrinted(front: string, tail: string)
    requires '-' !in tail
    ensures SplitLast(front + "-" + tail) == Some((front, tail))
  {
    var s := front + "-" + tail;
    if tail == [] {
      assert s[..|s| - 1] == front;
    } else {
      assert s[..|s| - 1] == front + "-" + tail[..|tail| - 1];
      SplitLastPrinted(front, tail[..|tail| - 1]);
      assert tail[..|tail| - 1] + [tail[|tail| - 1]] == tail;
    }
  }

  /** Parsing from the right undoes printing, whatever dashes and digits the VM name contains. */
  lemma ClaimNameRoundTrip(vmName: string, deviceIndex: nat, poolIndex: nat)
    ensures ParseClaimName(IPAddressClaimName(vmName, deviceIndex, poolIndex)) == Some((vmName, deviceIndex, poolIndex))
  {
    DecimalValue(deviceIndex);
    DecimalValue(poolIndex);
    SplitLastPrinted(vmName + "-" + Decimal(deviceIndex), Decimal(poolIndex));
    SplitLastPrinted(vmName, Decimal(deviceIndex));
  }

  /** No two VMs and no two pool slots share a claim. */
  lemma ClaimNameInjective(vm: string, d: nat, p: nat, vm': string, d': nat, p': nat)
    requires IPAddressClaimName(vm, d, p) == IPAddressClaimName(vm', d', p')
    ensures vm == vm' && d == d' && p == p'
  {
    ClaimNameRoundTrip(vm, d, p);
    ClaimNameRoundTrip(vm', d', p');
  }
}
