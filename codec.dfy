/**
 * The annotation file: frame indices become decimal strings on save (str(k))
 * and are parsed back on load (int(k)); boxes, colours, the colour counter and
 * the image paths are written as they are (label_dendritic_spines.py,
 * save_annotations and load_annotations).
 */
module Codec {
  import opened Wrappers
  import opened Geometry

  /** The decimal digit for d. */
  function DigitChar(d: nat): (c: char)
    requires d < 10
    ensures '0' <= c <= '9'
  {
    "0123456789"[d]
  }

  predicate IsDigit(c: char) { '0' <= c <= '9' }

  predicate AllDigits(s: string) { forall k :: 0 <= k < |s| ==> IsDigit(s[k]) }

  /** The value of a string of decimal digits, most significant first. */
  function DigitsValue(s: string): (n: nat)
    requires AllDigits(s)
  {
    if s == [] then 0 else 10 * DigitsValue(s[..|s| - 1]) + (s[|s| - 1] as int - '0' as int)
  }

  /** str(n) for a natural number: its shortest decimal form. */
  function NatToString(n: nat): (s: string)
    ensures s != [] && AllDigits(s)
    ensures |s| > 1 ==> s[0] != '0'
  {
    if n < 10 then [DigitChar(n)] else NatToString(n / 10) + [DigitChar(n % 10)]
  }

  /** str(k) for any integer: a minus sign before the digits of a negative one. */
  function IntToString(k: int): (s: string)
    ensures s != []
  {
    if k < 0 then "-" + NatToString(-k) else NatToString(k)
  }

  /** int(s) on the strings it accepts here: digits, optionally after a minus sign. */
  function ParseInt(s: string): (r: Option<int>)
    ensures r.Some? ==> s != []
  {
    if |s| > 1 && s[0] == '-' && AllDigits(s[1..]) then Some(0 - DigitsValue(s[1..]))
    else if s != [] && AllDigits(s) then Some(DigitsValue(s) as int)
    else None
  }

  /** Reading back the decimal form of n gives n. */
  lemma {:induction false} DigitsValueOfNatToString(n: nat)
    ensures DigitsValue(NatToString(n)) == n
  {
    if n >= 10 {
      var s := NatToString(n);
      DigitsValueOfNatToString(n / 10);
      assert s[..|s| - 1] == NatToString(n / 10);
      assert "0123456789"[n % 10] as int - '0' as int == n % 10;
    } else {
      assert "0123456789"[n] as int - '0' as int == n;
    }
  }

  /** Parsing what str(k) writes gives k back. */
  lemma ParseIntOfIntToString(k: int)
    ensures ParseInt(IntToString(k)) == Some(k)
  {
    var s := IntToString(k);
    if k < 0 {
      var t := NatToString(-k);
      assert s == "-" + t && s[1..] == t;
      DigitsValueOfNatToString(-k);
    } else {
      assert IsDigit(s[0]);
      DigitsValueOfNatToString(k);
    }
  }

  /** Different frame indices are written as different keys. */
  lemma IntToStringInjective()
    ensures forall a, b :: IntToString(a) == IntToString(b) ==> a == b
  {
    forall a, b | IntToString(a) == IntToString(b) ensures a == b {
      ParseIntOfIntToString(a);
      ParseIntOfIntToString(b);
    }
  }

  /**
   * A key read back as a frame index: only the canonical decimal strings,
   * exactly the strings str(k) produces.
   */
  function DecodeKey(s: string): (r: Option<int>)
    ensures r.Some? ==> IntToString(r.value) == s
  {
    var p := ParseInt(s);
    if p.Some? && IntToString(p.value) == s then p else None
  }

  /** Every key written on save is read back as the index it came from. */
  lemma DecodeKeyOfIntToString(k: int)
    ensures DecodeKey(IntToString(k)) == Some(k)
  {
    ParseIntOfIntToString(k);
  }

  /** Different keys never decode to the same frame index. */
  lemma DecodeKeyInjective()
    ensures forall s1, s2 ::
      DecodeKey(s1).Some? && DecodeKey(s2).Some? && DecodeKey(s1).value == DecodeKey(s2).value ==> s1 == s2
  {
  }

  /** {str(k): v for k, v in frames.items()}. */
  function EncodeFrames(frames: map<int, Box>): (r: map<string, Box>)
    ensures forall k :: k in frames ==> IntToString(k) in r && r[IntToString(k)] == frames[k]
    ensures forall s :: s in r ==> exists k :: k in frames && IntToString(k) == s
    ensures forall k :: IntToString(k) in r ==> k in frames
  {
    IntToStringInjective();
    map k | k in frames :: IntToString(k) := frames[k]
  }

  /** {int(k): v for k, v in frames.items()}, failing on any key that is not an index. */
  function DecodeFrames(frames: map<string, Box>): (r: Option<map<int, Box>>)
    ensures r.Some? <==> forall s :: s in frames ==> DecodeKey(s).Some?
    ensures r.Some? ==>
      forall s :: s in frames ==> DecodeKey(s).value in r.value && r.value[DecodeKey(s).value] == frames[s]
    ensures r.Some? ==> forall k {:trigger IntToString(k)} :: k in r.value ==> IntToString(k) in frames
  {
    if forall s :: s in frames ==> DecodeKey(s).Some? then
      DecodeKeyInjective();
      Some(map s | s in frames :: DecodeKey(s).value := frames[s])
    else
      None
  }

  /** Every key written on save decodes. */
  lemma EncodedKeysDecode(frames: map<int, Box>)
    ensures forall s :: s in EncodeFrames(frames) ==> DecodeKey(s).Some?
  {
    forall s | s in EncodeFrames(frames) ensures DecodeKey(s).Some? {
      var k :| k in frames && IntToString(k) == s;
      DecodeKeyOfIntToString(k);
    }
  }

  /** Decoding the keys written on save finds each saved frame under its own index. */
  lemma DecodeEncodedFrame(frames: map<int, Box>, k: int)
    requires k in frames
    ensures DecodeFrames(EncodeFrames(frames)).Some?
    ensures k in DecodeFrames(EncodeFrames(frames)).value
    ensures DecodeFrames(EncodeFrames(frames)).value[k] == frames[k]
  {
    EncodedKeysDecode(frames);
    DecodeKeyOfIntToString(k);
    assert IntToString(k) in EncodeFrames(frames);
  }

  /** Decoding the keys written on save yields no index that was not saved. */
  lemma DecodedEncodedKeysSaved(frames: map<int, Box>)
    ensures DecodeFrames(EncodeFrames(frames)).Some? ==>
      forall k :: k in DecodeFrames(EncodeFrames(frames)).value ==> k in frames
  {
    if DecodeFrames(EncodeFrames(frames)).Some? {
      forall k | k in DecodeFrames(EncodeFrames(frames)).value ensures k in frames {
        assert IntToString(k) in EncodeFrames(frames);
      }
    }
  }

  /** Two maps with the same keys and the same value under each key are equal. */
  lemma SameMap<K, V>(a: map<K, V>, b: map<K, V>)
    requires forall k :: k in b ==> k in a && a[k] == b[k]
    requires forall k :: k in a ==> k in b
    ensures a == b
  {
    forall k | k in a ensures k in b { }
    forall k | k in b ensures k in a { }
    assert a.Keys == b.Keys;
    forall k | k in a ensures a[k] == b[k] { }
  }

  /** Decoding the keys written on save gives back the frames that were saved. */
  lemma DecodeEncodeFrames(frames: map<int, Box>)
    ensures DecodeFrames(EncodeFrames(frames)) == Some(frames)
  {
    EncodedKeysDecode(frames);
    var d := DecodeFrames(EncodeFrames(frames)).value;
    forall k | k in frames ensures k in d && d[k] == frames[k] {
      DecodeEncodedFrame(frames, k);
    }
    DecodedEncodedKeysSaved(frames);
    SameMap(d, frames);
    assert DecodeFrames(EncodeFrames(frames)) == Some(d);
  }

  /** Frames that decode are written back to exactly the keys they were read from. */
  lemma EncodeDecodeFrames(frames: map<string, Box>)
    requires DecodeFrames(frames).Some?
    ensures EncodeFrames(DecodeFrames(frames).value) == frames
  {
    var d := DecodeFrames(frames).value;
    var e := EncodeFrames(d);
    forall s | s in frames ensures s in e && e[s] == frames[s] {
      assert IntToString(DecodeKey(s).value) == s;
    }
  }

  /** The spine_annotations entry of the file: every spine's frames with string keys. */
  function EncodeAnnotations(ann: map<string, map<int, Box>>): (r: map<string, map<string, Box>>)
    ensures r.Keys == ann.Keys
    ensures forall s :: s in ann ==> r[s] == EncodeFrames(ann[s])
  {
    map s | s in ann :: EncodeFrames(ann[s])
  }

  /** Reading the spine_annotations entry back, failing if any frame key is not an index. */
  function DecodeAnnotations(m: map<string, map<string, Box>>): (r: Option<map<string, map<int, Box>>>)
    ensures r.Some? <==> forall s :: s in m ==> DecodeFrames(m[s]).Some?
    ensures r.Some? ==> r.value.Keys == m.Keys
    ensures r.Some? ==> forall s :: s in m ==> r.value[s] == DecodeFrames(m[s]).value
  {
    if forall s :: s in m ==> DecodeFrames(m[s]).Some? then
      Some(map s | s in m :: DecodeFrames(m[s]).value)
    else
      None
  }

  /** Saving then loading the annotations gives back the same annotations. */
  lemma DecodeEncodeAnnotations(ann: map<string, map<int, Box>>)
    ensures DecodeAnnotations(EncodeAnnotations(ann)) == Some(ann)
  {
    var e := EncodeAnnotations(ann);
    forall s | s in e ensures DecodeFrames(e[s]) == Some(ann[s]) {
      DecodeEncodeFrames(ann[s]);
    }
    var d := DecodeAnnotations(e).value;
    assert d.Keys == ann.Keys;
    assert forall s :: s in d ==> d[s] == ann[s];
    assert d == ann;
    assert DecodeAnnotations(e) == Some(d);
  }

  /** Annotations that load are saved back to the same file entry. */
  lemma EncodeDecodeAnnotations(m: map<string, map<string, Box>>)
    requires DecodeAnnotations(m).Some?
    ensures EncodeAnnotations(DecodeAnnotations(m).value) == m
  {
    var d := DecodeAnnotations(m).value;
    forall s | s in m ensures EncodeFrames(d[s]) == m[s] {
      EncodeDecodeFrames(m[s]);
    }
    var e := EncodeAnnotations(d);
    assert e.Keys == m.Keys;
  }

  /** The contents of an annotation file. */
  datatype Snapshot = Snapshot(
    spineAnnotations: map<string, map<string, Box>>,
    spineColors: map<string, string>,
    colorIndex: int,
    imagePaths: seq<string>)
}
