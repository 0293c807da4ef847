/** Git's pkt-line framing as the gateway writes it (cmd/gits/api/git.go), and
    the response prefix of the Smart HTTP endpoints.

    In the pkt-line format of Git's protocol-common.txt, a packet starts with
    four hex digits giving the packet's total length, those four digits
    included; "0000" is the flush packet.
 */
module PktLine {
  import opened Wrappers
  import Numerals
  import Strings
  import opened Responses

  /** `n` in lower-case hex, left-padded with zeros to a multiple of four digits. */
  function PaddedHex(n: nat): (r: string)
    ensures |r| >= 4 && |r| % 4 == 0
    ensures forall i :: 0 <= i < |r| ==> '0' <= r[i] <= '9' || 'a' <= r[i] <= 'f'
    ensures Numerals.Value(r, 16) == n
    ensures n < 0x1_0000 ==> |r| == 4
  {
    var s := Numerals.Format(n, 16);
    var z := ZerosToFour(|s|);
    PrefixValue(n, z);
    FourDigits(n);
    var r := Numerals.Repeat0(z) + s;
    assert forall i :: 0 <= i < |r| ==> r[i] == (if i < z then '0' else s[i - z]);
    r
  }

  /** The number of zeros that brings `m` digits to a multiple of four. */
  function ZerosToFour(m: nat): (z: nat)
    ensures z < 4 && (m + z) % 4 == 0
    ensures 1 <= m <= 4 ==> m + z == 4
  {
    if m % 4 == 0 then 0 else 4 - m % 4
  }

  /** Every length below 0x10000 takes at most four hex digits. */
  lemma FourDigits(n: nat)
    ensures n < 0x1_0000 ==> |Numerals.Format(n, 16)| <= 4
  {
    Numerals.FormatLength(n, 16, 4);
    assert Numerals.Pow(16, 4) == 0x1_0000;
  }

  /** `gitRpcPacket`: the hex length of `payload` plus four, left-padded with
      zeros to a multiple of four digits, followed by `payload`. */
  function GitRpcPacket(payload: string): (r: string)
    ensures |r| >= 4 + |payload| && r[|r| - |payload|..] == payload
    ensures (|r| - |payload|) % 4 == 0
    ensures var prefix := r[..|r| - |payload|];
      (forall i :: 0 <= i < |prefix| ==> '0' <= prefix[i] <= '9' || 'a' <= prefix[i] <= 'f') &&
      Numerals.Value(prefix, 16) == |payload| + 4
    ensures |payload| + 4 < 0x1_0000 ==> |r| == 4 + |payload|
  {
    var digits := PaddedHex(|payload| + 4);
    var r := digits + payload;
    assert r[..|r| - |payload|] == digits;
    assert r[|r| - |payload|..] == payload;
    r
  }

  /** The padded digits carry the same value. */
  lemma PrefixValue(n: nat, z: nat)
    ensures Numerals.Value(Numerals.Repeat0(z) + Numerals.Format(n, 16), 16) == n
  {
    Numerals.ValueLeadingZeros(z, Numerals.Format(n, 16), 16);
    Numerals.ValueOfFormat(n, 16);
  }

  /** A packet as a reader sees it. */
  datatype Pkt = Flush | Data(payload: string)

  /** Reads one packet off the front of `s`: four hex digits of total length,
      "0000" being the flush packet; `None` on a malformed header. */
  function ReadPkt(s: string): (r: Option<(Pkt, string)>)
    ensures r.Some? ==> |r.value.1| < |s|
  {
    if |s| < 4 || !Numerals.AllDigitsIn(s[..4], 16) then None
    else
      var n := Numerals.Value(s[..4], 16);
      if n == 0 then Some((Flush, s[4..]))
      else if n < 4 || n > |s| then None
      else Some((Data(s[4..n]), s[n..]))
  }

  /** A reader gets back exactly the payload the gateway framed, and the rest of
      the stream after it, for every payload that fits a four-digit header. */
  lemma {:induction false} ReadGitRpcPacket(payload: string, rest: string)
    requires |payload| + 4 < 0x1_0000
    ensures ReadPkt(GitRpcPacket(payload) + rest) == Some((Data(payload), rest))
  {
    var p := GitRpcPacket(payload);
    var s := p + rest;
    assert s[..4] == p[..4];
    assert p[..|p| - |payload|] == p[..4];
    assert Numerals.AllDigitsIn(s[..4], 16) by {
      forall i | 0 <= i < 4
        ensures Numerals.IsDigitIn(s[..4][i], 16)
      {
        var c := s[..4][i];
        assert '0' <= c <= '9' || 'a' <= c <= 'f';
      }
    }
    assert s[4..|payload| + 4] == payload;
    assert s[|payload| + 4..] == rest;
  }

  /** The flush packet reads as `Flush`. */
  lemma ReadFlush(rest: string)
    ensures ReadPkt("0000" + rest) == Some((Flush, rest))
  {
    var s := "0000" + rest;
    assert s[..4] == "0000";
    assert Numerals.Value("0000", 16) == 0 by {
      assert "0000" == Numerals.Repeat0(4);
      Numerals.ValueOfZeros(4, 16);
    }
    assert s[4..] == rest;
  }

  /** The service announcement for `service`. */
  function ServiceLine(service: string): string {
    "# service=" + service + "\n"
  }

  /** `refsInfo`: the headers, the status, the service announcement packet, a
      flush, then whatever `git` advertises. */
  function RefsInfo(service: string, advertisement: string): (r: seq<Event>)
    ensures |r| == 6
    ensures StatusFirst(r) && StatusOf(r) == StatusOK
    ensures BodyOf(r) == GitRpcPacket(ServiceLine(service)) + "0000" + advertisement
    ensures r[..2] == [SetHeader("Cache-Control", "no-cache"),
                       SetHeader("Content-Type", "application/x-" + service + "-advertisement")]
  {
    var headers := [SetHeader("Cache-Control", "no-cache"),
                    SetHeader("Content-Type", "application/x-" + service + "-advertisement")];
    var r := Respond(headers, StatusOK, GitRpcPacket(ServiceLine(service))) + [Write("0000"), Write(advertisement)];
    RespondSeen(headers, StatusOK, GitRpcPacket(ServiceLine(service)));
    AppendWrites(Respond(headers, StatusOK, GitRpcPacket(ServiceLine(service))), "0000", advertisement);
    r
  }

  /** Writes appended after the status keep the status and extend the body. */
  lemma AppendWrites(t: seq<Event>, a: string, b: string)
    requires StatusFirst(t)
    ensures StatusFirst(t + [Write(a), Write(b)])
    ensures StatusOf(t + [Write(a), Write(b)]) == StatusOf(t)
    ensures BodyOf(t + [Write(a), Write(b)]) == BodyOf(t) + a + b
  {
    var w := [Write(a), Write(b)];
    var u := t + w;
    var k :| 0 <= k < |t| && t[k].WriteHeader?;
    assert u[k] == t[k];
    forall i, j | 0 <= i < |u| && 0 <= j < |u| && u[i].Write? && u[j].WriteHeader?
      ensures j < i
    {
      if i < |t| {
        assert u[i] == t[i];
      }
      assert u[j] == t[j];
    }
    StatusOfConcat(t, w, k);
    BodyOfConcat(t, w);
    assert w[1..] == [Write(b)];
    assert w[1..][1..] == [];
    assert BodyOf(w[1..]) == b + BodyOf(w[1..][1..]);
    assert BodyOf(w) == a + BodyOf(w[1..]);
  }

  /** The service line of the upload service frames to "001e". */
  lemma UploadPackHeader()
    ensures PaddedHex(|ServiceLine("git-upload-pack")| + 4) == "001e"
  {
    assert |ServiceLine("git-upload-pack")| + 4 == 30;
    assert Numerals.Format(30, 16) == "1e" by {
      assert Numerals.Format(1, 16) == "1";
    }
    assert Numerals.Repeat0(2) == "00" by {
      assert Numerals.Repeat0(0) == "";
    }
  }

  /** The info/refs response of the upload service begins with the framed
      announcement "001e# service=git-upload-pack\n" and the flush "0000". */
  lemma UploadPackAnnouncement(advertisement: string)
    ensures GitRpcPacket(ServiceLine("git-upload-pack")) == "001e# service=git-upload-pack\n"
    ensures BodyOf(RefsInfo("git-upload-pack", advertisement)) ==
            "001e# service=git-upload-pack\n0000" + advertisement
  {
    UploadPackPacket();
    var packet := "001e# service=git-upload-pack\n";
    assert packet + "0000" == "001e# service=git-upload-pack\n0000";
    assert packet + "0000" + advertisement == (packet + "0000") + advertisement;
  }

  lemma UploadPackPacket()
    ensures GitRpcPacket(ServiceLine("git-upload-pack")) == "001e# service=git-upload-pack\n"
  {
    var line := ServiceLine("git-upload-pack");
    GitRpcPacketIs(line);
    UploadPackHeader();
    assert line == "# service=git-upload-pack\n";
  }

  lemma GitRpcPacketIs(payload: string)
    ensures GitRpcPacket(payload) == PaddedHex(|payload| + 4) + payload
  {
  }

  /** A client reading the upload service's info/refs body gets the
      announcement packet, then a flush, then the advertisement. */
  lemma UploadPackReadBack(advertisement: string)
    ensures var body := BodyOf(RefsInfo("git-upload-pack", advertisement));
      ReadPkt(body) == Some((Data("# service=git-upload-pack\n"), "0000" + advertisement)) &&
      ReadPkt("0000" + advertisement) == Some((Flush, advertisement))
  {
    var line := ServiceLine("git-upload-pack");
    var body := BodyOf(RefsInfo("git-upload-pack", advertisement));
    assert body == GitRpcPacket(line) + "0000" + advertisement;
    assert body == GitRpcPacket(line) + ("0000" + advertisement);
    ReadGitRpcPacket(line, "0000" + advertisement);
    assert line == "# service=git-upload-pack\n";
    ReadFlush(advertisement);
  }

  /** `pack`: the result content type, the status, then `git`'s output. */
  function Pack(service: string, output: string): (r: seq<Event>)
    ensures StatusFirst(r) && StatusOf(r) == StatusOK
    ensures BodyOf(r) == output
    ensures HeaderOf(r, "Content-Type") == "application/x-" + service + "-result"
  {
    RespondSeen([SetHeader("Content-Type", "application/x-" + service + "-result")], StatusOK, output);
    OneHeaderSeen("Content-Type", "application/x-" + service + "-result", StatusOK, output);
    Respond([SetHeader("Content-Type", "application/x-" + service + "-result")], StatusOK, output)
  }
}
