/** Datatypes and byte strings shared by the other modules. */
module Wrappers {

  datatype Option<+T> = None | Some(value: T) {
    predicate IsFailure() {
      None?
    }

    function PropagateFailure<U>(): Option<U>
      requires None?
    {
      None
    }

    function Extract(): T
      requires Some?
    {
      value
    }
  }

  /** A parsed URL; the parts it does not have are empty. */
  datatype Url = Url(scheme: string, userinfo: string, host: string, port: string, path: string, fragment: string) {
    function Authority(): string {
      (if userinfo == "" then "" else userinfo + "@") + host + (if port == "" then "" else ":" + port)
    }

    function Show(): string {
      scheme + "://" + Authority() + path + (if fragment == "" then "" else "#" + fragment)
    }
  }

  /** Authorities tell hosts and ports apart. */
  lemma AuthorityTellsApart(a: Url, b: Url)
    requires a.userinfo == b.userinfo
    ensures a.port == b.port ==> (a.Authority() == b.Authority() <==> a.host == b.host)
    ensures a.host == b.host ==> (a.Authority() == b.Authority() <==> a.port == b.port)
  {
    var user := if a.userinfo == "" then "" else a.userinfo + "@";
    var (p, q) := (if a.port == "" then "" else ":" + a.port, if b.port == "" then "" else ":" + b.port);
    assert a.Authority() == user + (a.host + p) && b.Authority() == user + (b.host + q);
    SameBehind(user, a.host + p, b.host + q);
    if a.host == b.host {
      SameBehind(a.host, p, q);
      assert p == q ==> a.port == b.port by {
        if p == q && p != [] {
          assert p[1..] == a.port && q[1..] == b.port;
        }
      }
    }
    if a.port == b.port && a.host + p == b.host + q {
      assert (a.host + p)[..|a.host|] == a.host && (b.host + q)[..|b.host|] == b.host;
    }
  }

  lemma SameBehind(a: string, b: string, c: string)
    ensures a + b == a + c <==> b == c
  {
    assert (a + b)[|a|..] == b && (a + c)[|a|..] == c;
  }

  /** Header names in lower case, with all their values. */
  type Headers = map<string, seq<string>>

  const TWO_64: nat := 0x1_0000_0000_0000_0000

  function Min(a: int, b: int): int {
    if a <= b then a else b
  }

  function Max(a: int, b: int): int {
    if a >= b then a else b
  }

  /** One byte, written as the character with that code. */
  type byte = c: char | c as int < 256 witness ' '

  type Bytes = seq<byte>

  predicate IsDigit(b: byte) {
    '0' <= b <= '9'
  }

  /** The digit of `n`, in base 16 with capital letters. */
  function Digit(n: nat): (b: byte)
    requires n < 16
    ensures n < 10 ==> IsDigit(b) && b as int == '0' as int + n
  {
    if n < 10 then (('0' as int + n) as char) else (('A' as int + n - 10) as char)
  }
}
