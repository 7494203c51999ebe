/** Which files count, which paths and lock records are accepted, and the limits, in plain terms. */
module FileReading {
  import opened Wrappers
  import opened Ordering
  import opened Sorting
  import opened PosixPath
  import opened PathNames
  import opened ReleaseTree
  import opened Framing
  import opened ArtifactLock
  import BoundedRead
  import RdfList

  lemma LimitsByNumber()
    ensures MAX_DISTRIBUTION_FILE_BYTES == 16_777_216 && DIGEST_BYTES == 32 && MAX_REGISTER_BYTES == 1_048_576
    ensures BoundedRead.CHUNK == 65_536 && RdfList.LIMIT == 10_000
  {
  }

  // ----- the files of a distribution

  /** Backslashes of the listed path are read as separators. */
  lemma RelativeExactly(f: Installed, i: nat)
    requires i < |f.packagePath|
    ensures |Relative(f)| == |f.packagePath|
    ensures Relative(f)[i] == if f.packagePath[i] == '\\' then '/' else f.packagePath[i]
  {
  }

  lemma AcceptableExactly(f: Installed)
    ensures Acceptable(f) <==> f.regular && |f.payload| <= 16_777_216
  {
  }

  /** Files outside the package, compiled code, and what an installer adds. */
  ghost predicate LeftOut(relative: string) {
    || ".." in Split(relative) || StartsIn(relative, "/")
    || EndsIn(relative, ".dist-info/RECORD") || Within(relative, "/__pycache__/") || EndsIn(relative, ".pyc")
    || (Within(relative, ".dist-info/")
        && (Name(relative) == "INSTALLER" || Name(relative) == "REQUESTED" || Name(relative) == "direct_url.json"))
  }

  lemma {:induction false} KeptComponent(parts: seq<string>, p: string)
    requires p != "" && p != "."
    ensures p in Components(parts) <==> p in parts
    decreases |parts|
  {
    if parts != [] {
      KeptComponent(parts[1..], p);
      assert parts == [parts[0]] + parts[1..];
    }
  }

  /** The digest leaves out exactly these files. */
  lemma SkippedExactly(relative: string)
    ensures Skipped(relative) <==> LeftOut(relative)
  {
    KeptComponent(Split(relative), "..");
    StartsExactly(relative, "/");
    EndsExactly(relative, ".dist-info/RECORD");
    EndsExactly(relative, ".pyc");
    ContainsExactly(relative, "/__pycache__/");
    ContainsExactly(relative, ".dist-info/");
  }

  /** The manifest is written in the order of paths, and of digests only where paths are equal. */
  lemma ManifestByPath(q: seq<Record>, i: nat, j: nat)
    requires InOrder(RecordLe, q) && i < j < |q|
    ensures || StringLess(q[i].path, q[j].path)
            || (q[i].path == q[j].path && (q[i].digest == q[j].digest || LexLess(q[i].digest, q[j].digest)))
  {
    assert RecordLe(q[i], q[j]);
  }

  // ----- the order of texts

  /** At their first difference the first text has the smaller character, or it ends there. */
  ghost predicate Precedes(a: seq<int>, b: seq<int>, k: nat) {
    && k <= |a| && k <= |b| && a[..k] == b[..k]
    && k < |b| && (k == |a| || a[k] < b[k])
  }

  lemma {:induction false} LexExactly(a: seq<int>, b: seq<int>)
    ensures LexLess(a, b) <==> exists k: nat :: Precedes(a, b, k)
    decreases |a|
  {
    if |a| > 0 && |b| > 0 && a[0] == b[0] {
      LexExactly(a[1..], b[1..]);
      if k: nat :| Precedes(a[1..], b[1..], k) {
        assert a[..k + 1] == [a[0]] + a[1..][..k] && b[..k + 1] == [b[0]] + b[1..][..k];
        assert Precedes(a, b, k + 1);
      }
      if k: nat :| Precedes(a, b, k) {
        assert a[..k][1..] == a[1..][..k - 1] && b[..k][1..] == b[1..][..k - 1];
        assert Precedes(a[1..], b[1..], k - 1);
      }
    } else if LexLess(a, b) {
      assert Precedes(a, b, 0);
    } else {
      forall k: nat
        ensures !Precedes(a, b, k)
      {
        if 0 < k <= |a| && k <= |b| {
          assert a[..k][0] == a[0] && b[..k][0] == b[0];
        }
      }
    }
  }

  /** Texts are compared by code points, as in a dictionary. */
  lemma StringsInOrder(a: string, b: string)
    ensures StringLess(a, b) <==> exists k: nat :: IsFirstDifference(a, b, k)
  {
    LexExactly(Codes(a), Codes(b));
    forall k: nat
      ensures Precedes(Codes(a), Codes(b), k) <==> IsFirstDifference(a, b, k)
    {
      if k <= |a| && k <= |b| {
        if a[..k] == b[..k] {
          assert forall i | 0 <= i < k :: a[i] == a[..k][i] && b[i] == b[..k][i];
          assert Codes(a)[..k] == Codes(b)[..k];
        }
        if Codes(a)[..k] == Codes(b)[..k] {
          assert forall i | 0 <= i < k :: Codes(a)[i] == Codes(a)[..k][i] && Codes(b)[i] == Codes(b)[..k][i];
          assert a[..k] == b[..k];
        }
      }
    }
  }

  ghost predicate IsFirstDifference(a: string, b: string, k: nat) {
    && k <= |a| && k <= |b| && a[..k] == b[..k]
    && k < |b| && (k == |a| || a[k] < b[k])
  }

  // ----- the artifact lock

  /** Small letters become the capital ones, all other characters stay. */
  lemma UpperByAlphabet(s: string, i: nat)
    requires i < |s|
    ensures |Upper(s)| == |s|
    ensures forall k | 0 <= k < 26 && s[i] == SMALL[k] :: Upper(s)[i] == CAPITAL[k]
    ensures s[i] !in SMALL ==> Upper(s)[i] == s[i]
  {
    assert |SMALL| == 26 && forall k | 0 <= k < 26 :: CAPITAL[k] as int == 65 + k && SMALL[k] as int == 97 + k;
    if 'a' <= s[i] <= 'z' {
      assert SMALL[s[i] as int - 97] == s[i];
    }
  }

  lemma {:induction false} StemExactly(part: string)
    ensures '.' !in BeforeDot(part)
    ensures part == BeforeDot(part) || StartsIn(part, BeforeDot(part) + ".")
    decreases |part|
  {
    if part != "" && part[0] != '.' {
      StemExactly(part[1..]);
      assert part == [part[0]] + part[1..];
      if rest :| part[1..] == BeforeDot(part[1..]) + "." + rest {
        assert part == BeforeDot(part) + "." + rest;
      }
    } else if part != "" {
      assert part == "" + "." + part[1..];
    }
  }

  predicate IsDeviceName(s: string) {
    || s == "CON" || s == "PRN" || s == "AUX" || s == "NUL"
    || (|s| == 4 && (s[..3] == "COM" || s[..3] == "LPT") && s[3] in "123456789")
  }

  lemma DeviceTexts()
    ensures "COM1" == "COM" + "1" && "COM2" == "COM" + "2" && "COM3" == "COM" + "3" && "COM4" == "COM" + "4"
      && "COM5" == "COM" + "5"
    ensures "COM6" == "COM" + "6" && "COM7" == "COM" + "7" && "COM8" == "COM" + "8" && "COM9" == "COM" + "9"
    ensures "LPT1" == "LPT" + "1" && "LPT2" == "LPT" + "2" && "LPT3" == "LPT" + "3" && "LPT4" == "LPT" + "4"
      && "LPT5" == "LPT" + "5"
    ensures "LPT6" == "LPT" + "6" && "LPT7" == "LPT" + "7" && "LPT8" == "LPT" + "8" && "LPT9" == "LPT" + "9"
  {
  }

  lemma DeviceNames(s: string)
    ensures s in RESERVED_NAMES <==> IsDeviceName(s)
  {
    DeviceTexts();
    if |s| == 4 {
      assert s == s[..3] + [s[3]];
    }
  }

  /** A segment that names the same file on every system. */
  ghost predicate IsPortableSegment(part: string) {
    && part != "" && part != "." && part != ".."
    && !EndsIn(part, " ") && !EndsIn(part, ".")
    && !IsDeviceName(Upper(BeforeDot(part)))
  }

  /** A path is accepted exactly if it has no NUL, backslash or colon and all its segments are portable. */
  lemma PortableExactly(relative: string)
    ensures Portable(relative)
       <==> && '\0' !in relative && '\\' !in relative && ':' !in relative
            && forall part | part in Split(relative) :: IsPortableSegment(part)
  {
    PortableByParts(relative);
    assert relative == "" ==> "" in Split(relative);
    forall part
      ensures PortablePart(part) <==> IsPortableSegment(part)
    {
      EndsExactly(part, " ");
      EndsExactly(part, ".");
      DeviceNames(Upper(BeforeDot(part)));
    }
  }

  predicate IsFilled(f: Field) {
    f != Text("") && f.Text?
  }

  /** A record is accepted exactly if its path is portable and a machine artifact's, its digest has 64
      small hexadecimal digits, license and version are given, and so is the origin, or the source where
      there is no origin. */
  lemma RecordExactly(r: LockRecord)
    ensures RecordOk(r)
       <==> && r.LockRecord? && r.path.Text? && r.sha256.Text?
            && Portable(r.path.text) && IsMachineArtifact(r.path.text)
            && |r.sha256.text| == 64 && (forall i | 0 <= i < 64 :: r.sha256.text[i] in "0123456789abcdef")
            && IsFilled(r.license) && IsFilled(r.version)
            && (IsFilled(r.origin) || ((r.origin == Text("") || r.origin == OtherFalsy) && IsFilled(r.source)))
  {
    if r.LockRecord? && r.sha256.Text? {
      HexDigestExactly(r.sha256.text);
    }
  }

  lemma HexDigestExactly(s: string)
    ensures IsHexDigest(s) <==> |s| == 64 && forall i | 0 <= i < 64 :: s[i] in "0123456789abcdef"
  {
    forall i | 0 <= i < |s|
      ensures '0' <= s[i] <= '9' || 'a' <= s[i] <= 'f' <==> s[i] in "0123456789abcdef"
    {
      HexDigit(s[i]);
    }
  }

  lemma HexDigit(c: char)
    ensures '0' <= c <= '9' || 'a' <= c <= 'f' <==> c in "0123456789abcdef"
  {
    var digits := "0123456789abcdef";
    assert forall k | 0 <= k < 10 :: digits[k] as int == 48 + k;
    assert forall k | 10 <= k < 16 :: digits[k] as int == 87 + k;
    if '0' <= c <= '9' {
      assert digits[c as int - 48] == c;
    } else if 'a' <= c <= 'f' {
      assert digits[c as int - 87] == c;
    }
  }

  /** The records of a lock file are used exactly if it can be read, has at most 1,048,576 bytes and
      parses to a document with the approved version, profile and prohibition and a list of records. */
  lemma LockExactly(lockFile: Option<Bytes>, parse: Bytes -> Option<Lock>, records: seq<LockRecord>)
    ensures ApprovedLock(lockFile, parse) == Some(records)
       <==> exists bytes :: lockFile == Some(bytes) && |bytes| <= 1_048_576
              && parse(bytes)
                 == Some(Lock(Text("molit.profile-artifact-lock/1"), Text("0.1.0"), true, Some(records)))
  {
  }
}
