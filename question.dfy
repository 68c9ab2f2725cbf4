/** The question record (dns-tunnel-lib/src/question.rs): a byte frame built from a
    dotted name, a query type and a query class.

    Section 4.1.2 of RFC 1035 lays a question out as length-prefixed labels, a zero
    terminator, QTYPE and QCLASS. This codec writes the labels and then QTYPE and
    QCLASS directly: it appends no zero terminator. Its name reader does not decode
    labels either; it returns the raw bytes before the first zero byte. */
module Questions {
  import opened Wire

  const QTypeSize: nat := 2
  const QClassSize: nat := 2

  /** Names this codec accepts: every character is ASCII, so one character is one byte. */
  predicate IsAscii(s: string)
  {
    forall i :: 0 <= i < |s| ==> s[i] as int < 128
  }

  /** `str::split(sep)`: the maximal pieces between separators, in order. A string with
      n separators has n + 1 pieces, some of them possibly empty. */
  function Split(s: string, sep: char): (r: seq<string>)
    ensures |r| >= 1
    ensures forall i :: 0 <= i < |r| ==> sep !in r[i]
    ensures |r[0]| <= |s|
    ensures |s| > 0 && s[0] != sep ==> |r[0]| > 0
    decreases |s|
  {
    if |s| == 0 then [""]
    else
      var rest := Split(s[1..], sep);
      if s[0] == sep then [""] + rest
      else [[s[0]] + rest[0]] + rest[1..]
  }

  /** The pieces put back together with one separator between neighbours. */
  function Join(parts: seq<string>, sep: char): (r: string)
    requires |parts| >= 1
  {
    if |parts| == 1 then parts[0] else parts[0] + [sep] + Join(parts[1..], sep)
  }

  /** Splitting loses nothing: the pieces joined again give the original string. */
  lemma {:induction false} JoinSplit(s: string, sep: char)
    ensures Join(Split(s, sep), sep) == s
    decreases |s|
  {
    if |s| > 0 {
      var rest := Split(s[1..], sep);
      JoinSplit(s[1..], sep);
      if s[0] == sep {
        assert Split(s, sep)[1..] == rest;
      } else if |rest| > 1 {
        assert Split(s, sep)[1..] == rest[1..];
        assert Join(rest, sep) == rest[0] + [sep] + Join(rest[1..], sep);
      }
    }
  }

  /** A separator-free prefix joins the first piece of what follows it. */
  lemma {:induction false} SplitAfterPrefix(a: string, t: string, sep: char)
    requires sep !in a
    ensures Split(a + t, sep) == [a + Split(t, sep)[0]] + Split(t, sep)[1..]
    decreases |a|
  {
    if |a| > 0 {
      assert (a + t)[0] == a[0] && (a + t)[1..] == a[1..] + t;
      SplitAfterPrefix(a[1..], t, sep);
      assert [a[0]] + (a[1..] + Split(t, sep)[0]) == a + Split(t, sep)[0];
    } else {
      var r := Split(t, sep);
      assert a + t == t && a + r[0] == r[0];
      assert [r[0]] + r[1..] == r;
    }
  }

  /** Separator-free pieces come back unchanged from joining and splitting. */
  lemma {:induction false} SplitJoin(parts: seq<string>, sep: char)
    requires |parts| >= 1
    requires forall i :: 0 <= i < |parts| ==> sep !in parts[i]
    ensures Split(Join(parts, sep), sep) == parts
    decreases |parts|
  {
    if |parts| == 1 {
      SplitAfterPrefix(parts[0], "", sep);
      assert Split("", sep) == [""];
      assert parts[0] + "" == parts[0];
    } else {
      var tail := Join(parts[1..], sep);
      SplitJoin(parts[1..], sep);
      assert ([sep] + tail)[1..] == tail;
      assert Split([sep] + tail, sep) == [""] + parts[1..];
      SplitAfterPrefix(parts[0], [sep] + tail, sep);
      assert parts[0] + [sep] + tail == parts[0] + ([sep] + tail);
      assert parts[0] + "" == parts[0];
      assert parts == [parts[0]] + parts[1..];
    }
  }

  /** `c as u8`: the low eight bits of the 32-bit code point (the code itself below 256). */
  function CharByte(c: char): (r: bv8)
    ensures r as bv32 == (c as bv32) % 256
    ensures c as int < 256 ==> r as char == c
  {
    if c as int < 256 then (c as int) as bv8 else ((c as bv32) & 0xFF) as bv8
  }

  /** A label's characters, one byte each. */
  function CharBytes(lbl: string): (r: seq<bv8>)
    ensures |r| == |lbl|
  {
    seq(|lbl|, i requires 0 <= i < |lbl| => CharByte(lbl[i]))
  }

  /** One more character of a prefix adds its byte at the end. */
  lemma CharBytesOfLongerPrefix(lbl: string, j: nat)
    requires j < |lbl|
    ensures CharBytes(lbl[..j + 1]) == CharBytes(lbl[..j]) + [CharByte(lbl[j])]
  {
  }

  /** `label.len() as u8`: the length, truncated to eight bits. */
  function LengthByte(lbl: string): (r: bv8)
    ensures |lbl| < 256 ==> r as int == |lbl|
    ensures r == 0 <==> |lbl| % 256 == 0
  {
    (|lbl| % 256) as bv8
  }

  /** Each label as its length byte followed by its bytes, all labels in order. */
  function EncodeLabels(labels: seq<string>): (r: seq<bv8>)
    ensures |r| >= |labels|
    ensures |labels| > 0 ==> |r| > |labels[0]| && r[0] == LengthByte(labels[0])
  {
    if labels == [] then [] else [LengthByte(labels[0])] + CharBytes(labels[0]) + EncodeLabels(labels[1..])
  }

  /** The bytes a name becomes: its dot-separated labels, encoded in order. */
  function NameBytes(qname: string): (r: seq<bv8>)
    ensures |r| >= 1 && r[0] == LengthByte(Split(qname, '.')[0])
  {
    EncodeLabels(Split(qname, '.'))
  }

  /** The frame `Question::new` builds: the name's labels, then QTYPE and QCLASS big-endian,
      with no zero terminator between them. */
  function Encoding(qname: string, qtype: bv16, qclass: bv16): (r: seq<bv8>)
    ensures |r| == |NameBytes(qname)| + 4 && r[..|r| - 4] == NameBytes(qname)
    ensures FromBeBytes(r[|r| - 4], r[|r| - 3]) == qtype && FromBeBytes(r[|r| - 2], r[|r| - 1]) == qclass
  {
    var t := ToBeBytes(qtype);
    var c := ToBeBytes(qclass);
    NameBytes(qname) + [t.0, t.1, c.0, c.1]
  }

  /** One step of `EncodeLabels`: a label contributes its length byte and its characters. */
  lemma EncodeLabelsCons(lbl: string, rest: seq<string>)
    ensures EncodeLabels([lbl] + rest) == [LengthByte(lbl)] + CharBytes(lbl) + EncodeLabels(rest)
  {
    assert ([lbl] + rest)[1..] == rest;
  }

  /** Encoding one more label appends that label's bytes. */
  lemma {:induction false} EncodeLabelsAppend(labels: seq<string>, lbl: string)
    ensures EncodeLabels(labels + [lbl]) == EncodeLabels(labels) + [LengthByte(lbl)] + CharBytes(lbl)
    decreases |labels|
  {
    if labels == [] {
      assert [lbl][1..] == [];
    } else {
      assert (labels + [lbl])[1..] == labels[1..] + [lbl];
      EncodeLabelsAppend(labels[1..], lbl);
    }
  }

  /** A name that starts with a dot starts with an empty label, encoded as one zero byte. */
  lemma NameBytesOfLeadingDot(s: string)
    requires |s| > 0 && s[0] == '.'
    ensures NameBytes(s) == [0] + NameBytes(s[1..])
  {
    var rest := Split(s[1..], '.');
    assert Split(s, '.') == [""] + rest;
    EncodeLabelsCons("", rest);
  }

  /** A first character other than the separator belongs to the first piece. */
  lemma SplitOfLeadingChar(s: string, sep: char)
    requires |s| > 0 && s[0] != sep
    ensures Split(s, sep) == [[s[0]] + Split(s[1..], sep)[0]] + Split(s[1..], sep)[1..]
  {
  }

  /** The bytes of a label that starts with `c`. */
  lemma CharBytesCons(c: char, t: string)
    ensures CharBytes([c] + t) == [CharByte(c)] + CharBytes(t)
  {
  }

  /** Byte arithmetic behind `NameBytesOfLeadingChar`: one byte `c` put in front of the
      first label's bytes `u` shows up at index 1 and shifts everything after it by one. */
  lemma ShiftedLabel(x: bv8, y: bv8, c: bv8, u: seq<bv8>, e: seq<bv8>)
    ensures |[x] + ([c] + u) + e| == |[y] + u + e| + 1
    ensures ([x] + ([c] + u) + e)[1] == c
    ensures ([x] + ([c] + u) + e)[2..] == ([y] + u + e)[1..]
  {
    assert ([x] + ([c] + u) + e)[2..] == u + e;
    assert ([y] + u + e)[1..] == u + e;
  }

  /** Any other first character joins the first label: it lands right after that label's
      length byte, and the rest of the encoding is that of the name without it. */
  lemma NameBytesOfLeadingChar(s: string)
    requires |s| > 0 && s[0] != '.'
    ensures |NameBytes(s[1..])| > 0
    ensures |NameBytes(s)| == |NameBytes(s[1..])| + 1
    ensures NameBytes(s)[1] == CharByte(s[0]) && NameBytes(s)[2..] == NameBytes(s[1..])[1..]
  {
    var rest := Split(s[1..], '.');
    var first := [s[0]] + rest[0];
    SplitOfLeadingChar(s, '.');
    assert rest == [rest[0]] + rest[1..];
    EncodeLabelsCons(first, rest[1..]);
    EncodeLabelsCons(rest[0], rest[1..]);
    CharBytesCons(s[0], rest[0]);
    ShiftedLabel(LengthByte(first), LengthByte(rest[0]), CharByte(s[0]), CharBytes(rest[0]), EncodeLabels(rest[1..]));
  }

  /** The encoding of a name, against that of the name without its first character. */
  lemma NameBytesUnfold(s: string)
    requires |s| > 0
    ensures |NameBytes(s[1..])| > 0
    ensures s[0] == '.' ==> NameBytes(s) == [0] + NameBytes(s[1..])
    ensures s[0] != '.' ==> |NameBytes(s)| == |NameBytes(s[1..])| + 1
    ensures s[0] != '.' ==> NameBytes(s)[1] == CharByte(s[0]) && NameBytes(s)[2..] == NameBytes(s[1..])[1..]
  {
    if s[0] == '.' {
      NameBytesOfLeadingDot(s);
      var rest := Split(s[1..], '.');
      assert rest == [rest[0]] + rest[1..];
      EncodeLabelsCons(rest[0], rest[1..]);
    } else {
      NameBytesOfLeadingChar(s);
    }
  }

  /** The encoding of a name is one byte longer than the name. */
  lemma {:induction false} NameBytesLength(s: string)
    ensures |NameBytes(s)| == |s| + 1
    decreases |s|
  {
    if |s| == 0 {
      assert Split(s, '.') == [""];
    } else {
      NameBytesUnfold(s);
      NameBytesLength(s[1..]);
    }
  }

  /** Byte `i + 1` of a name's encoding: the length byte of the next label where the name
      has a dot, the character's own byte everywhere else. */
  lemma {:induction false} NameByteAt(s: string, i: nat)
    requires i < |s|
    ensures |NameBytes(s)| == |s| + 1
    ensures NameBytes(s)[i + 1] == if s[i] == '.' then LengthByte(Split(s[i + 1..], '.')[0]) else CharByte(s[i])
    decreases i
  {
    NameBytesLength(s);
    NameBytesUnfold(s);
    if i > 0 {
      NameByteAt(s[1..], i - 1);
      assert s[1..][i - 1] == s[i] && s[1..][i..] == s[i + 1..];
    } else if s[0] == '.' {
      assert NameBytes(s)[1] == NameBytes(s[1..])[0];
    }
  }

  /** The frame of a name is the name's length plus five: one length byte per label
      stands in for each dot, one more leads, and QTYPE and QCLASS take four. */
  lemma EncodingLength(qname: string, qtype: bv16, qclass: bv16)
    ensures |Encoding(qname, qtype, qclass)| == |qname| + 5
  {
    NameBytesLength(qname);
  }

  /** The last four bytes are QTYPE and QCLASS, each big-endian. */
  lemma EncodingTail(qname: string, qtype: bv16, qclass: bv16)
    ensures var e := Encoding(qname, qtype, qclass);
      |e| >= 5 && FromBeBytes(e[|e| - 4], e[|e| - 3]) == qtype && FromBeBytes(e[|e| - 2], e[|e| - 1]) == qclass
  {
    NameBytesLength(qname);
  }

  /** The empty name is one empty label: a single zero length byte before QTYPE and QCLASS. */
  lemma EncodingOfEmptyName(qtype: bv16, qclass: bv16)
    ensures var t, c := ToBeBytes(qtype), ToBeBytes(qclass);
      Encoding("", qtype, qclass) == [0, t.0, t.1, c.0, c.1]
  {
    assert Split("", '.') == [""];
    assert NameBytes("") == [0];
  }

  /** No zero terminator follows the labels: when the name does not end in a dot, the
      byte just before QTYPE is the name's last character. */
  lemma NoTerminatorBeforeQType(qname: string, qtype: bv16, qclass: bv16)
    requires |qname| > 0 && qname[|qname| - 1] != '.'
    ensures |Encoding(qname, qtype, qclass)| == |qname| + 5
    ensures Encoding(qname, qtype, qclass)[|qname|] == CharByte(qname[|qname| - 1])
  {
    NameByteAt(qname, |qname| - 1);
  }

  /** A name whose labels are all non-empty: it neither starts nor ends with a dot and has no two dots in a row. */
  predicate NoEmptyLabel(s: string)
  {
    |s| > 0 && s[0] != '.' && s[|s| - 1] != '.' &&
    forall i :: 0 <= i < |s| - 1 && s[i] == '.' ==> s[i + 1] != '.'
  }

  /** A non-empty string shorter than 256 has a non-zero length byte. */
  lemma LengthByteNonZero(lbl: string)
    requires 0 < |lbl| < 256
    ensures LengthByte(lbl) != 0
  {
  }

  /** Where `get_qname` stops on a frame from `Question::new`. For an ASCII name without
      NUL characters, without empty labels and shorter than 256, and a QTYPE below 256,
      the first zero byte is QTYPE's high byte at index `|qname| + 1`: the name read
      back is the length-prefixed labels, not the dotted name. */
  lemma FirstZeroOfEncoding(qname: string, qtype: bv16, qclass: bv16)
    requires IsAscii(qname) && NoEmptyLabel(qname) && |qname| < 256
    requires forall i :: 0 <= i < |qname| ==> qname[i] != 0 as char
    requires qtype < 256
    ensures |Encoding(qname, qtype, qclass)| > |qname| + 1
    ensures Encoding(qname, qtype, qclass)[|qname| + 1] == 0
    ensures forall k :: 0 <= k <= |qname| ==> Encoding(qname, qtype, qclass)[k] != 0
  {
    var e := Encoding(qname, qtype, qclass);
    NameBytesLength(qname);
    LengthByteNonZero(Split(qname, '.')[0]);
    forall k | 0 < k <= |qname|
      ensures e[k] != 0
    {
      var i := k - 1;
      NameByteAt(qname, i);
      if qname[i] == '.' {
        var after := qname[i + 1..];
        assert |after| > 0 && after[0] != '.';
        LengthByteNonZero(Split(after, '.')[0]);
      } else {
        assert 0 < qname[i] as int < 128;
      }
    }
  }

  /** The ASCII codes of the letters of the example name. */
  lemma LetterBytes()
    ensures CharByte('g') == 0x67 && CharByte('o') == 0x6f && CharByte('l') == 0x6c
    ensures CharByte('e') == 0x65 && CharByte('c') == 0x63 && CharByte('m') == 0x6d
  {
  }

  /** The bytes of the label "google". */
  lemma GoogleBytes(g: string)
    requires g == "google"
    ensures LengthByte(g) == 6
    ensures CharBytes(g) == [0x67, 0x6f, 0x6f, 0x67, 0x6c, 0x65]
  {
    LetterBytes();
    assert CharBytes(g) == [CharByte('g'), CharByte('o'), CharByte('o'), CharByte('g'), CharByte('l'), CharByte('e')];
  }

  /** The bytes of the label "com". */
  lemma ComBytes(c: string)
    requires c == "com"
    ensures LengthByte(c) == 3
    ensures CharBytes(c) == [0x63, 0x6f, 0x6d]
  {
    LetterBytes();
    assert CharBytes(c) == [CharByte('c'), CharByte('o'), CharByte('m')];
  }

  /** The name part of the unit test's frame: "google.com" becomes two length-prefixed labels. */
  lemma GoogleComName(g: string, c: string)
    requires g == "google" && c == "com"
    ensures NameBytes(g + "." + c) == [6, 0x67, 0x6f, 0x6f, 0x67, 0x6c, 0x65, 3, 0x63, 0x6f, 0x6d]
  {
    assert g + "." + c == Join([g, c], '.');
    SplitJoin([g, c], '.');
    assert [g, c] == [g] + [c];
    assert [c] == [c] + [];
    EncodeLabelsCons(g, [c]);
    EncodeLabelsCons(c, []);
    GoogleBytes(g);
    ComBytes(c);
  }

  /** The unit test of question.rs: "google.com" with QTYPE 16 and QCLASS 1 encodes to
      fifteen bytes, the last four being the two big-endian 16-bit fields. */
  lemma EncodingExample(g: string, c: string)
    requires g == "google" && c == "com"
    ensures Encoding(g + "." + c, 16, 1) ==
      [6, 0x67, 0x6f, 0x6f, 0x67, 0x6c, 0x65, 3, 0x63, 0x6f, 0x6d, 0x00, 0x10, 0x00, 0x01]
  {
    GoogleComName(g, c);
    assert ToBeBytes(16) == (0x00, 0x10) && ToBeBytes(1) == (0x00, 0x01);
  }

  /** With QTYPE and QCLASS 257 the frame of the name "a" holds no zero byte at all,
      so `get_qname` would index past its end. */
  lemma UnterminatedExample(a: string)
    requires a == "a"
    ensures Encoding(a, 257, 257) == [1, 0x61, 1, 1, 1, 1]
    ensures forall k :: 0 <= k < |Encoding(a, 257, 257)| ==> Encoding(a, 257, 257)[k] != 0
  {
    assert a == Join([a], '.');
    SplitJoin([a], '.');
    EncodeLabelsCons(a, []);
    assert [a] == [a] + [];
    assert CharBytes(a) == [CharByte('a')];
    assert ToBeBytes(257) == (1, 1);
  }

  /** The loop `for byte in &v.to_be_bytes() { vec.push(*byte) }`: pushes the high byte, then the low byte. */
  method PushBeBytes(vec: seq<bv8>, v: bv16) returns (out: seq<bv8>)
    ensures out == vec + [ToBeBytes(v).0, ToBeBytes(v).1]
    ensures FromBeBytes(out[|vec|], out[|vec| + 1]) == v
  {
    var bytes := ToBeBytes(v);
    var pair := [bytes.0, bytes.1];
    out := vec;
    for k := 0 to |pair|
      invariant out == vec + pair[..k]
    {
      out := out + [pair[k]];
    }
    assert pair[..|pair|] == pair;
  }

  datatype Question = Question(frame: seq<bv8>)
  {
    /** `Question::new`: for every label of the name, its length byte and its bytes; then
        QTYPE and QCLASS, big-endian. */
    static method New(qname: string, qtype: bv16, qclass: bv16) returns (q: Question)
      requires IsAscii(qname)
      ensures q.frame == Encoding(qname, qtype, qclass)
    {
      var vec: seq<bv8> := [];
      var labels := Split(qname, '.');
      for k := 0 to |labels|
        invariant vec == EncodeLabels(labels[..k])
      {
        var lbl := labels[k];
        vec := vec + [LengthByte(lbl)];
        for j := 0 to |lbl|
          invariant vec == EncodeLabels(labels[..k]) + [LengthByte(lbl)] + CharBytes(lbl[..j])
        {
          CharBytesOfLongerPrefix(lbl, j);
          vec := vec + [CharByte(lbl[j])];
        }
        assert lbl[..|lbl|] == lbl;
        EncodeLabelsAppend(labels[..k], lbl);
        assert labels[..k + 1] == labels[..k] + [lbl];
      }
      assert labels[..|labels|] == labels;
      var name := vec;
      vec := PushBeBytes(vec, qtype);
      vec := PushBeBytes(vec, qclass);
      var t, c := ToBeBytes(qtype), ToBeBytes(qclass);
      assert vec == name + [t.0, t.1] + [c.0, c.1] == name + [t.0, t.1, c.0, c.1];
      q := Question(vec);
    }

    /** `get_qname`: every byte before the first zero byte, each as a character. Length
        bytes are included and no dots are inserted. The frame must hold a zero byte
        (otherwise the loop indexes past the end) and at least four bytes (otherwise
        the capacity `frame.len() - 4` underflows). */
    method GetQname() returns (name: string)
      requires |frame| >= QTypeSize + QClassSize
      requires exists z :: 0 <= z < |frame| && frame[z] == 0
      ensures |name| < |frame| && frame[|name|] == 0
      ensures forall k :: 0 <= k < |name| ==> frame[k] != 0 && name[k] == frame[k] as char
    {
      ghost var z :| 0 <= z < |frame| && frame[z] == 0;
      var i := 0;
      name := "";
      while true
        invariant i <= z && |name| == i
        invariant forall k :: 0 <= k < i ==> frame[k] != 0 && name[k] == frame[k] as char
        decreases z - i
      {
        var labelSize := frame[i];
        if labelSize == 0 {
          break;
        }
        name := name + [frame[i] as char];
        i := i + 1;
      }
    }
  }

  /** A question built by `Question::new` and read back by `get_qname`: the name comes
      back one character longer, with the first label's length in front and every dot
      replaced by the length of the label after it. */
  method NameOfNewQuestion(qname: string, qtype: bv16, qclass: bv16) returns (name: string)
    requires IsAscii(qname) && NoEmptyLabel(qname) && |qname| < 256
    requires forall i :: 0 <= i < |qname| ==> qname[i] != 0 as char
    requires qtype < 256
    ensures |name| == |qname| + 1
    ensures name[0] == LengthByte(Split(qname, '.')[0]) as char
    ensures forall i :: 0 <= i < |qname| ==>
      name[i + 1] == if qname[i] == '.' then LengthByte(Split(qname[i + 1..], '.')[0]) as char else qname[i]
  {
    var q := Question.New(qname, qtype, qclass);
    FirstZeroOfEncoding(qname, qtype, qclass);
    name := q.GetQname();
    assert |name| == |qname| + 1;
    NameBytesUnfold(qname);
    forall i | 0 <= i < |qname|
      ensures name[i + 1] == if qname[i] == '.' then LengthByte(Split(qname[i + 1..], '.')[0]) as char else qname[i]
    {
      NameByteAt(qname, i);
    }
  }
}
