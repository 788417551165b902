/**
 * Classification of the values the system-information queries return: the
 * processor architecture code and the Windows version, with its display
 * string.
 */
module SysInfo {
  import opened Ints

  datatype ProcessorArchitecture = X86 | X64 | Arm | Arm64 | Unknown(id: U16)

  /** `ProcessorArchitecture::from_id`: the PROCESSOR_ARCHITECTURE_* codes
      0, 9, 5 and 12; any other code is kept in `Unknown`. */
  function FromId(id: U16): (a: ProcessorArchitecture)
    ensures a == X86 <==> id == 0
    ensures a == X64 <==> id == 9
    ensures a == Arm <==> id == 5
    ensures a == Arm64 <==> id == 12
    ensures a.Unknown? <==> id != 0 && id != 9 && id != 5 && id != 12
    ensures a.Unknown? ==> a.id == id
  {
    match id
    case 0 => X86
    case 9 => X64
    case 5 => Arm
    case 12 => Arm64
    case other => Unknown(other)
  }

  /** Distinct codes give distinct architectures. */
  lemma FromIdInjective(i: U16, j: U16)
    requires FromId(i) == FromId(j)
    ensures i == j
  {
  }

  /** `OsVersion`, as returned by `GetVersionExW`. */
  datatype OsVersion = OsVersion(
    major: U32, minor: U32, build: U32,
    servicePackMajor: U16, servicePackMinor: U16, productType: U8)
  {
    /** `is_windows_10_or_later`. */
    predicate IsWindows10OrLater()
    {
      major >= 10
    }

    /** `is_windows_11_or_later`: Windows 11 reports major version 10 with a
        build number from 22000 on. */
    predicate IsWindows11OrLater()
    {
      major >= 10 && build >= 22000
    }

    /** `display_string`. */
    function DisplayString(): (s: string)
      ensures s == Name() + BuildSuffix(build)
    {
      if major >= 10 then
        if build >= 22000 then "Windows 11" + BuildSuffix(build)
        else "Windows 10" + BuildSuffix(build)
      else if major == 6 then
        match minor
        case 3 => "Windows 8.1" + BuildSuffix(build)
        case 2 => "Windows 8" + BuildSuffix(build)
        case 1 => "Windows 7" + BuildSuffix(build)
        case 0 => "Windows Vista" + BuildSuffix(build)
        case _ => "Windows " + Decimal(major) + "." + Decimal(minor) + BuildSuffix(build)
      else "Windows " + Decimal(major) + "." + Decimal(minor) + BuildSuffix(build)
    }

    /** The part of the display string before the build number. */
    function Name(): (n: string)
      ensures |n| >= 9 && n[..8] == "Windows "
    {
      if major >= 10 then (if build >= 22000 then "Windows 11" else "Windows 10")
      else if major == 6 && minor == 3 then "Windows 8.1"
      else if major == 6 && minor == 2 then "Windows 8"
      else if major == 6 && minor == 1 then "Windows 7"
      else if major == 6 && minor == 0 then "Windows Vista"
      else "Windows " + Decimal(major) + "." + Decimal(minor)
    }
  }

  /** ` (Build {build})`. */
  function BuildSuffix(build: U32): string
  {
    " (Build " + Decimal(build) + ")"
  }

  /** Windows 11 counts as Windows 10 or later. */
  lemma Windows11Is10(v: OsVersion)
    ensures v.IsWindows11OrLater() ==> v.IsWindows10OrLater()
  {
  }

  /** The display string names Windows 11 exactly for the versions
      `is_windows_11_or_later` accepts, and Windows 10 exactly for the other
      versions with major version 10 or more. */
  lemma DisplayNamesRelease(v: OsVersion)
    ensures v.DisplayString()[..10] == "Windows 11" <==> v.IsWindows11OrLater()
    ensures v.DisplayString()[..10] == "Windows 10" <==> v.major >= 10 && v.build < 22000
  {
    if v.major < 10 {
      NotTen(v);
    }
  }

  /** Below major version 10 the tenth character of the display string is
      not a digit. */
  lemma NotTen(v: OsVersion)
    requires v.major < 10
    ensures !('0' <= v.DisplayString()[9] <= '9')
  {
    var n := v.Name();
    Tenth(n, BuildSuffix(v.build));
    if !(v.major == 6 && v.minor <= 3) {
      var d := Decimal(v.major);
      assert d == [Digit(v.major)];
      assert n == "Windows " + d + ("." + Decimal(v.minor));
      assert n[9] == '.';
    }
  }

  lemma Tenth(n: string, b: string)
    requires |n| >= 9 && b != []
    ensures (n + b)[9] == if |n| > 9 then n[9] else b[0]
  {
  }

  /** Major version 6 is named by its minor version; an unnamed version is
      shown by its numbers. */
  lemma DisplayOlder(v: OsVersion)
    ensures v.major == 6 && v.minor == 3 ==> v.Name() == "Windows 8.1"
    ensures v.major == 6 && v.minor == 2 ==> v.Name() == "Windows 8"
    ensures v.major == 6 && v.minor == 1 ==> v.Name() == "Windows 7"
    ensures v.major == 6 && v.minor == 0 ==> v.Name() == "Windows Vista"
    ensures v.major < 10 && !(v.major == 6 && v.minor <= 3) ==>
      v.DisplayString() == "Windows " + Decimal(v.major) + "." + Decimal(v.minor)
        + " (Build " + Decimal(v.build) + ")"
  {
  }
}
