/**
 * `tuner_device_id`: the key under which the autotuner of a wgpu client caches
 * its results, `"wgpu-<device>-<backend>"`, where `<device>` is the adapter's
 * 32-bit device number in decimal and `<backend>` the backend's name.
 */
module TunerId {

  /** The `u32` device number of an `AdapterInfo`. */
  type u32 = x: int | 0 <= x < 0x1_0000_0000

  predicate IsDigit(c: char) {
    '0' <= c <= '9'
  }

  /** The character of a decimal digit. */
  function DigitChar(d: nat): (c: char)
    requires d < 10
    ensures IsDigit(c) && DigitValue(c) == d
  {
    (('0' as int) + d) as char
  }

  /** The value of a decimal digit character. */
  function DigitValue(c: char): nat
    requires IsDigit(c)
  {
    c as int - '0' as int
  }

  /** The value of a string of decimal digits. */
  function DecimalValue(s: string): nat
    requires forall i :: 0 <= i < |s| ==> IsDigit(s[i])
  {
    if |s| == 0 then 0
    else DecimalValue(s[..|s| - 1]) * 10 + DigitValue(s[|s| - 1])
  }

  /** `n` as `Display` writes an unsigned integer: decimal digits, no leading zero. */
  function Decimal(n: nat): (s: string)
    ensures |s| >= 1
    ensures forall i :: 0 <= i < |s| ==> IsDigit(s[i])
    ensures |s| > 1 ==> s[0] != '0'
  {
    if n < 10 then [DigitChar(n)] else Decimal(n / 10) + [DigitChar(n % 10)]
  }

  /** Reading the decimal text back gives the number. */
  lemma {:induction false} DecimalRoundTrip(n: nat)
    ensures DecimalValue(Decimal(n)) == n
  {
    if n >= 10 {
      DecimalRoundTrip(n / 10);
      var s := Decimal(n);
      assert s[..|s| - 1] == Decimal(n / 10);
    }
  }

  /** The tuner's device id of an adapter with the given device number and backend name. */
  function TunerDeviceId(device: u32, backend: string): (id: string)
    ensures |id| > |backend| + 6 && id[..5] == "wgpu-"
    ensures id[|id| - |backend|..] == backend && id[|id| - |backend| - 1] == '-'
  {
    var digits := Decimal(device);
    var id := "wgpu-" + digits + "-" + backend;
    assert |id| == 6 + |digits| + |backend|;
    assert id[|id| - |backend|..] == backend;
    id
  }

  /** When `t` starts with a dash, splitting digits-then-`t` at the first dash is unique. */
  lemma DigitsThenDash(s: string, t: string, s': string, t': string)
    requires forall i :: 0 <= i < |s| ==> IsDigit(s[i])
    requires forall i :: 0 <= i < |s'| ==> IsDigit(s'[i])
    requires |t| > 0 && t[0] == '-' && |t'| > 0 && t'[0] == '-'
    requires s + t == s' + t'
    ensures s == s' && t == t'
  {
    var u := s + t;
    assert u[|s|] == '-' && forall i :: 0 <= i < |s| ==> u[i] != '-' by {
      assert forall i :: 0 <= i < |s| ==> u[i] == s[i];
    }
    assert u[|s'|] == '-' && forall i :: 0 <= i < |s'| ==> u[i] != '-' by {
      assert forall i :: 0 <= i < |s'| ==> u[i] == s'[i];
    }
    assert |s| == |s'|;
    assert s == u[..|s|] == s';
    assert t == u[|s|..] == t';
  }

  /** After the `"wgpu-"` prefix come the digits, then the dash and the backend name. */
  lemma TunerDeviceIdSuffix(device: u32, backend: string)
    ensures TunerDeviceId(device, backend)[5..] == Decimal(device) + ("-" + backend)
  {
    var digits := Decimal(device);
    assert TunerDeviceId(device, backend) == "wgpu-" + (digits + ("-" + backend));
  }

  /** Distinct adapters (device number, backend) get distinct tuner ids. */
  lemma TunerDeviceIdInjective(device: u32, backend: string, device': u32, backend': string)
    requires TunerDeviceId(device, backend) == TunerDeviceId(device', backend')
    ensures device == device' && backend == backend'
  {
    TunerDeviceIdSuffix(device, backend);
    TunerDeviceIdSuffix(device', backend');
    DigitsThenDash(Decimal(device), "-" + backend, Decimal(device'), "-" + backend');
    assert backend == ("-" + backend)[1..] && backend' == ("-" + backend')[1..];
    DecimalRoundTrip(device);
    DecimalRoundTrip(device');
  }
}
