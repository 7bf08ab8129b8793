/** Service instances as the load balancer and the breaker registry see them, and the string keys of their addresses. */
module Instances {
  type u32 = x: int | 0 <= x < 0x1_0000_0000

  datatype Instance = Instance(ip: string, port: nat, weight: real, healthy: bool, metricsPack: u32)

  function Digit(d: nat): char
    requires d < 10
  {
    "0123456789"[d]
  }

  /** The decimal form of a port. */
  function Decimal(n: nat): (s: string)
    ensures |s| > 0 && ':' !in s
  {
    if n < 10 then [Digit(n)] else Decimal(n / 10) + [Digit(n % 10)]
  }

  /** `f"{ip}:{port}"`. */
  function Key(ip: string, port: nat): string {
    ip + ":" + Decimal(port)
  }

  lemma {:induction false} DecimalInjective(m: nat, n: nat)
    requires Decimal(m) == Decimal(n)
    ensures m == n
  {
    var s, t := Decimal(m), Decimal(n);
    assert s[|s| - 1] == Digit(m % 10) && t[|t| - 1] == Digit(n % 10);
    assert m % 10 == n % 10;
    if m >= 10 && n >= 10 {
      assert s[..|s| - 1] == Decimal(m / 10) && t[..|t| - 1] == Decimal(n / 10);
      DecimalInjective(m / 10, n / 10);
    }
  }

  /** Even for IPv6 addresses, which contain colons: the port is what follows the last one. */
  lemma KeyInjective(ip1: string, port1: nat, ip2: string, port2: nat)
    ensures Key(ip1, port1) == Key(ip2, port2) <==> ip1 == ip2 && port1 == port2
  {
    var s, t := Key(ip1, port1), Key(ip2, port2);
    if s == t {
      assert s[|ip1|] == ':' && t[|ip2|] == ':';
      assert forall i :: |ip1| < i < |s| ==> s[i] == Decimal(port1)[i - |ip1| - 1];
      assert forall i :: |ip2| < i < |t| ==> t[i] == Decimal(port2)[i - |ip2| - 1];
      assert |ip1| == |ip2|;
      assert s[..|ip1|] == ip1 && t[..|ip2|] == ip2;
      assert s[|ip1| + 1..] == Decimal(port1) && t[|ip2| + 1..] == Decimal(port2);
      DecimalInjective(port1, port2);
    }
  }

  function InstanceKey(i: Instance): string {
    Key(i.ip, i.port)
  }

  /** How a key looks. */
  lemma KeyExample()
    ensures Key("10.0.0.1", 8080) == "10.0.0.1:8080"
  {
    assert Decimal(8) == "8" && Decimal(80) == "80" && Decimal(808) == "808" && Decimal(8080) == "8080";
  }
}
