// apps/greybus-utils/manifest.c: the manifest parser, which registers CPorts, and its release pass.
module Manifest {
  type byte = b: nat | b < 256

  const EINVAL: int := 22
  const HEADER_SIZE: nat := 4 // of a descriptor and of the manifest itself
  const VERSION_MAJOR: nat := 0

  const TYPE_INTERFACE: nat := 1
  const TYPE_STRING: nat := 2
  const TYPE_BUNDLE: nat := 3
  const TYPE_CPORT: nat := 4

  datatype CPort = CPort(id: nat, protocol: nat, deviceId: int)

  function Le16(s: seq<byte>, i: nat): nat
    requires i + 2 <= |s|
  {
    s[i] as int + 256 * s[i + 1] as int
  }

  // ALIGN of the source: (x + 3) & ~3
  function Align(x: nat): nat {
    (x + 3) / 4 * 4
  }

  // ----- what a well-formed manifest body is -----

  ghost predicate WellFormed(d: seq<byte>) {
    && |d| >= HEADER_SIZE && Le16(d, 0) == |d|
    && ((d[2] in {TYPE_INTERFACE, TYPE_BUNDLE, TYPE_CPORT} && |d| >= 8)
        || (d[2] == TYPE_STRING && |d| >= 5 && |d| >= Align(6 + d[4] as int)))
  }

  ghost predicate AllWellFormed(ds: seq<seq<byte>>) {
    forall i | 0 <= i < |ds| :: WellFormed(ds[i])
  }

  function Concat(ds: seq<seq<byte>>): seq<byte> {
    if ds == [] then [] else ds[0] + Concat(ds[1..])
  }

  // The CPort that a descriptor announces, if it announces one.
  function CPortsOf(d: seq<byte>, deviceId: int): seq<CPort> {
    if |d| >= 8 && d[2] == TYPE_CPORT then [CPort(Le16(d, 4), d[7], deviceId)] else []
  }

  function AllCPorts(ds: seq<seq<byte>>, deviceId: int): seq<CPort> {
    if ds == [] then [] else CPortsOf(ds[0], deviceId) + AllCPorts(ds[1..], deviceId)
  }

  function WithoutId(cports: seq<CPort>, id: nat): seq<CPort> {
    if cports == [] then []
    else if cports[0].id == id then WithoutId(cports[1..], id)
    else [cports[0]] + WithoutId(cports[1..], id)
  }

  lemma {:induction false} WithoutIdMembers(cports: seq<CPort>, id: nat)
    ensures forall c :: c in WithoutId(cports, id) <==> c in cports && c.id != id
  {
    if cports != [] {
      WithoutIdMembers(cports[1..], id);
      assert forall c :: c in cports <==> c == cports[0] || c in cports[1..];
    }
  }

  function Released(cports: seq<CPort>, gone: seq<CPort>): seq<CPort>
    decreases gone
  {
    if gone == [] then cports else Released(WithoutId(cports, gone[0].id), gone[1..])
  }

  // The list of CPorts after descriptors ds have been parsed or released.
  function After(cports: seq<CPort>, ds: seq<seq<byte>>, deviceId: int, release: bool): seq<CPort> {
    if release then Released(cports, AllCPorts(ds, deviceId)) else cports + AllCPorts(ds, deviceId)
  }

  lemma AfterOne(cports: seq<CPort>, d: seq<byte>, deviceId: int)
    ensures AllCPorts([d], deviceId) == CPortsOf(d, deviceId)
    ensures CPortsOf(d, deviceId) == [] ==> forall release :: After(cports, [d], deviceId, release) == cports
    ensures CPortsOf(d, deviceId) != [] ==>
              After(cports, [d], deviceId, true) == WithoutId(cports, CPortsOf(d, deviceId)[0].id)
  {
    assert [d][1..] == [];
    var gone := CPortsOf(d, deviceId);
    assert AllCPorts([d], deviceId) == gone;
    if gone != [] {
      assert gone[1..] == [];
      var r := WithoutId(cports, gone[0].id);
      assert Released(r, gone[1..]) == r;
    }
  }

  lemma NoneAfter(cports: seq<CPort>, deviceId: int, release: bool)
    ensures After(cports, [], deviceId, release) == cports
  {
  }

  lemma AfterOneMore(cports: seq<CPort>, ds: seq<seq<byte>>, d: seq<byte>, deviceId: int, release: bool)
    ensures After(After(cports, ds, deviceId, release), [d], deviceId, release) == After(cports, ds + [d], deviceId, release)
  {
    hide AllCPorts, Released;
    AllCPortsSplits(ds, [d], deviceId);
    ReleasedSplits(cports, AllCPorts(ds, deviceId), AllCPorts([d], deviceId));
  }

  // ----- how the parser cuts a body -----

  // The size of the descriptor at the start of body, 0 if it is not acceptable.
  ghost function HeadSize(body: seq<byte>): (n: nat)
    ensures n <= |body| && (n > 0 ==> n >= 8)
  {
    if |body| >= HEADER_SIZE && Le16(body, 0) <= |body| && WellFormed(body[..Le16(body, 0)])
    then Le16(body, 0) else 0
  }

  // The acceptable descriptors from the start, up to the first that is not.
  ghost function Descriptors(body: seq<byte>): seq<seq<byte>> {
    var n := HeadSize(body);
    if n == 0 then [] else [body[..n]] + Descriptors(body[n..])
  }

  // The part that is never reached.
  ghost function Rest(body: seq<byte>): (r: seq<byte>)
    ensures |r| <= |body|
  {
    var n := HeadSize(body);
    if n == 0 then body else Rest(body[n..])
  }

  // The cut is exact: nothing is skipped or read twice, and each piece takes at least 8 bytes.
  lemma {:induction false} CutIsExact(body: seq<byte>)
    ensures AllWellFormed(Descriptors(body)) && Concat(Descriptors(body)) + Rest(body) == body
    ensures 8 * |Descriptors(body)| <= |body|
    decreases |body|
  {
    hide HeadSize, Descriptors, Rest, Concat, WellFormed;
    var n := HeadSize(body);
    NextCut(body);
    if n > 0 {
      CutIsExact(body[n..]);
      ConcatCons(body[..n], Descriptors(body[n..]), Rest(body[n..]));
      assert body[..n] + body[n..] == body;
    }
  }

  lemma NextCut(body: seq<byte>)
    ensures var n := HeadSize(body);
            if n > 0
            then Descriptors(body) == [body[..n]] + Descriptors(body[n..]) && Rest(body) == Rest(body[n..]) && WellFormed(body[..n])
            else Descriptors(body) == [] && Rest(body) == body && Concat([]) == []
  {
  }

  lemma ConcatCons(d: seq<byte>, ds: seq<seq<byte>>, rest: seq<byte>)
    ensures Concat([d] + ds) + rest == d + (Concat(ds) + rest)
  {
    assert ([d] + ds)[1..] == ds;
  }

  // A body made of well-formed descriptors is cut into exactly these.
  lemma {:induction false} CutIsUnique(ds: seq<seq<byte>>)
    requires AllWellFormed(ds)
    ensures Descriptors(Concat(ds)) == ds && Rest(Concat(ds)) == []
  {
    if ds != [] {
      var body, n := Concat(ds), |ds[0]|;
      assert WellFormed(ds[0]) && body[..n] == ds[0] && body[n..] == Concat(ds[1..]);
      assert Le16(body, 0) == Le16(ds[0], 0);
      CutIsUnique(ds[1..]);
      assert ds == [ds[0]] + ds[1..];
    }
  }

  // PARSING SUCCEEDS EXACTLY FOR CONCATENATIONS OF WELL-FORMED DESCRIPTORS.
  lemma AcceptsExactlyConcatenations(body: seq<byte>)
    ensures Rest(body) == [] <==> exists ds :: AllWellFormed(ds) && Concat(ds) == body
  {
    CutIsExact(body);
    if Rest(body) == [] {
      assert Concat(Descriptors(body)) == body;
    }
    if ds :| AllWellFormed(ds) && Concat(ds) == body {
      CutIsUnique(ds);
    }
  }

  // ----- register and release -----

  ghost predicate Foreign(cports: seq<CPort>, gone: seq<CPort>) {
    forall c, g | c in cports && g in gone :: c.id != g.id
  }

  lemma {:induction false} WithoutForeignId(cports: seq<CPort>, id: nat)
    requires forall c | c in cports :: c.id != id
    ensures WithoutId(cports, id) == cports
  {
    if cports != [] {
      assert cports[0] in cports;
      WithoutForeignId(cports[1..], id);
    }
  }

  lemma {:induction false} WithoutIdSplits(a: seq<CPort>, b: seq<CPort>, id: nat)
    ensures WithoutId(a + b, id) == WithoutId(a, id) + WithoutId(b, id)
  {
    if a == [] {
      assert a + b == b;
    } else {
      WithoutIdSplits(a[1..], b, id);
      WithoutIdHead(a[0], a[1..] + b, id);
      WithoutIdHead(a[0], a[1..], id);
      assert a + b == [a[0]] + (a[1..] + b) && a == [a[0]] + a[1..];
    }
  }

  lemma WithoutIdHead(c: CPort, s: seq<CPort>, id: nat)
    ensures WithoutId([c] + s, id) == (if c.id == id then [] else [c]) + WithoutId(s, id)
  {
    assert ([c] + s)[1..] == s;
  }

  lemma {:induction false} ReleasedMembers(cports: seq<CPort>, gone: seq<CPort>)
    ensures forall c :: c in Released(cports, gone) <==> c in cports && forall g | g in gone :: c.id != g.id
    decreases gone
  {
    if gone != [] {
      WithoutIdMembers(cports, gone[0].id);
      ReleasedMembers(WithoutId(cports, gone[0].id), gone[1..]);
      assert forall g :: g in gone <==> g == gone[0] || g in gone[1..];
    }
  }

  lemma {:induction false} ReleasedDistributes(a: seq<CPort>, b: seq<CPort>, gone: seq<CPort>)
    ensures Released(a + b, gone) == Released(a, gone) + Released(b, gone)
    decreases gone
  {
    if gone != [] {
      WithoutIdSplits(a, b, gone[0].id);
      ReleasedDistributes(WithoutId(a, gone[0].id), WithoutId(b, gone[0].id), gone[1..]);
    }
  }

  lemma {:induction false} ForeignStay(cports: seq<CPort>, gone: seq<CPort>)
    requires Foreign(cports, gone)
    ensures Released(cports, gone) == cports
    decreases gone
  {
    if gone != [] {
      assert gone[0] in gone && forall g :: g in gone[1..] ==> g in gone;
      WithoutForeignId(cports, gone[0].id);
      ForeignStay(cports, gone[1..]);
    }
  }

  lemma NoMembers<T>(s: seq<T>)
    requires forall x :: x !in s
    ensures s == []
  {
    if s != [] {
      Member(s, 0);
    }
  }

  lemma Member<T>(s: seq<T>, i: nat)
    requires i < |s|
    ensures s[i] in s
  {
  }

  // RELEASE UNDOES PARSING exactly when none of the manifest's ids was registered before.
  lemma ReleaseUndoesParse(before: seq<CPort>, added: seq<CPort>)
    ensures Released(before + added, added) == before <==> Foreign(before, added)
  {
    ReleasedMembers(before + added, added);
    if Foreign(before, added) {
      ReleasedDistributes(before, added, added);
      ForeignStay(before, added);
      ReleasedMembers(added, added);
      NoMembers(Released(added, added));
    } else {
      var c, g :| c in before && g in added && c.id == g.id;
      assert c !in Released(before + added, added);
    }
  }

  lemma FreeStep(cports: seq<CPort>, i: nat, id: nat)
    requires i < |cports|
    ensures var kept := cports[..i] + WithoutId(cports[i..], id);
            if cports[i].id == id
            then (cports[..i] + cports[i + 1..])[..i] + WithoutId((cports[..i] + cports[i + 1..])[i..], id) == kept
            else cports[..i + 1] + WithoutId(cports[i + 1..], id) == kept
  {
    assert cports[i..][1..] == cports[i + 1..];
    if cports[i].id == id {
      assert (cports[..i] + cports[i + 1..])[i..] == cports[i + 1..];
    } else {
      assert cports[..i + 1] == cports[..i] + [cports[i]];
    }
  }

  // What identify_descriptor accepts, byte by byte: a size that fits, and one of the four types with at least
  // the bytes that it takes; for a string its header, two bytes and the text, padded to a multiple of four.
  predicate Acceptable(desc: seq<byte>) {
    |desc| >= 4 &&
    var size := desc[0] as int + 256 * desc[1] as int;
    && size <= |desc|
    && if desc[2] == 2 then size >= 5 && size >= 6 + desc[4] as int + (2 - desc[4] as int) % 4
       else desc[2] in {1, 3, 4} && size >= 8
  }

  lemma AlignIsLeast(x: nat)
    ensures Align(x) % 4 == 0 && x <= Align(x) < x + 4 && Align(x) == x + (4 - x % 4) % 4
  {
  }

  lemma AcceptableHead(desc: seq<byte>)
    ensures HeadSize(desc) > 0 <==> Acceptable(desc)
    ensures HeadSize(desc) > 0 ==> HeadSize(desc) == desc[0] as int + 256 * desc[1] as int
  {
    if |desc| >= 4 && Le16(desc, 0) <= |desc| {
      var d := desc[..Le16(desc, 0)];
      if |d| > 4 {
        assert d[4] == desc[4];
        AlignIsLeast(6 + d[4] as int);
      }
      if |d| >= 4 {
        assert Le16(d, 0) == Le16(desc, 0) && d[2] == desc[2];
      }
    }
  }

  // ----- manifests as they are written -----

  // The 16-bit fields are little-endian.
  function PutLe16(v: nat): seq<byte>
    requires v < 0x1_0000
  {
    [v % 256, v / 256]
  }

  datatype Announced = Announced(id: nat, bundle: byte, protocol: byte)

  // struct greybus_descriptor_header and struct greybus_descriptor_cport
  function CPortDescriptor(c: Announced): (d: seq<byte>)
    requires c.id < 0x1_0000
    ensures |d| == 8
  {
    PutLe16(8) + [TYPE_CPORT, 0] + PutLe16(c.id) + [c.bundle, c.protocol]
  }

  predicate IdsFit(cs: seq<Announced>) {
    forall i | 0 <= i < |cs| :: cs[i].id < 0x1_0000
  }

  function CPortDescriptors(cs: seq<Announced>): seq<seq<byte>>
    requires IdsFit(cs)
  {
    if cs == [] then [] else [CPortDescriptor(cs[0])] + CPortDescriptors(cs[1..])
  }

  // What should come of them: the bundle is not kept.
  function Registered(cs: seq<Announced>, deviceId: int): seq<CPort> {
    if cs == [] then [] else [CPort(cs[0].id, cs[0].protocol, deviceId)] + Registered(cs[1..], deviceId)
  }

  // A manifest with these descriptors: struct greybus_manifest_header and the descriptors.
  function ManifestOf(cs: seq<Announced>, minor: byte): seq<byte>
    requires IdsFit(cs) && 4 + 8 * |cs| < 0x1_0000
  {
    PutLe16(4 + 8 * |cs|) + [VERSION_MAJOR, minor] + Concat(CPortDescriptors(cs))
  }

  lemma Le16Reads(v: nat, s: seq<byte>, i: nat)
    requires v < 0x1_0000 && i + 2 <= |s| && s[i..i + 2] == PutLe16(v)
    ensures Le16(s, i) == v
  {
    assert s[i] == s[i..i + 2][0] && s[i + 1] == s[i..i + 2][1];
  }

  lemma ReadsCPort(c: Announced, deviceId: int)
    requires c.id < 0x1_0000
    ensures WellFormed(CPortDescriptor(c)) && CPortsOf(CPortDescriptor(c), deviceId) == [CPort(c.id, c.protocol, deviceId)]
  {
    var d := CPortDescriptor(c);
    assert d[0..2] == PutLe16(8) && d[4..6] == PutLe16(c.id);
    Le16Reads(8, d, 0);
    Le16Reads(c.id, d, 4);
  }

  lemma {:induction false} ReadsCPorts(cs: seq<Announced>, deviceId: int)
    requires IdsFit(cs)
    ensures AllWellFormed(CPortDescriptors(cs)) && AllCPorts(CPortDescriptors(cs), deviceId) == Registered(cs, deviceId)
    ensures |Concat(CPortDescriptors(cs))| == 8 * |cs|
  {
    if cs != [] {
      hide WellFormed, CPortsOf;
      var d, ds := CPortDescriptor(cs[0]), CPortDescriptors(cs[1..]);
      ReadsCPort(cs[0], deviceId);
      ReadsCPorts(cs[1..], deviceId);
      assert ([d] + ds)[1..] == ds;
    }
  }

  // ROUND TRIP: what a written manifest announces is what its parse registers, with the fields in their places.
  lemma ReadsWrittenManifest(cs: seq<Announced>, minor: byte, deviceId: int)
    requires IdsFit(cs) && 0 < |cs| && 4 + 8 * |cs| < 0x1_0000
    ensures HeaderOk(ManifestOf(cs, minor)) && Rest(ManifestOf(cs, minor)[4..]) == []
    ensures AllCPorts(Descriptors(ManifestOf(cs, minor)[4..]), deviceId) == Registered(cs, deviceId)
  {
    var m, body := ManifestOf(cs, minor), Concat(CPortDescriptors(cs));
    ReadsCPorts(cs, deviceId);
    CutIsUnique(CPortDescriptors(cs));
    assert m[4..] == body && m[0..2] == PutLe16(4 + 8 * |cs|);
    Le16Reads(4 + 8 * |cs|, m, 0);
  }

  class Parser {
    var cports: seq<CPort> // g_greybus.cports
    var deviceId: int      // g_device_id

    constructor ()
      ensures cports == []
    {
      cports, deviceId := [], 0;
    }

    method AllocCport(cport: CPort)
      modifies this`cports
      ensures cports == old(cports) + [cport]
    {
      cports := cports + [cport];
    }

    method FreeCport(id: nat)
      modifies this`cports
      ensures cports == WithoutId(old(cports), id)
    {
      var i := 0;
      while i < |cports|
        invariant 0 <= i <= |cports|
        invariant WithoutId(old(cports), id) == cports[..i] + WithoutId(cports[i..], id)
        decreases |cports| - i
      {
        FreeStep(cports, i, id);
        if cports[i].id == id {
          cports := cports[..i] + cports[i + 1..];
        } else {
          i := i + 1;
        }
      }
      assert cports[i..] == [] && cports[..i] == cports;
    }

    // identify_descriptor on the bytes that remain. `beyond` stands for whatever lies after them: the
    // length byte of a string descriptor is read before the size is compared.
    method IdentifyDescriptor(desc: seq<byte>, release: bool, beyond: byte) returns (r: int)
      modifies this`cports
      ensures HeadSize(desc) > 0 ==> r == HeadSize(desc) && cports == After(old(cports), [desc[..HeadSize(desc)]], deviceId, release)
      ensures HeadSize(desc) == 0 ==> r == -EINVAL && cports == old(cports)
      ensures r > 0 <==> Acceptable(desc)
      ensures r > 0 ==> r == desc[0] as int + 256 * desc[1] as int
      ensures r > 0 && desc[2] != 4 ==> cports == old(cports)
      ensures r > 0 && desc[2] == 4 && !release ==>
                cports == old(cports) + [CPort(desc[4] as int + 256 * desc[5] as int, desc[7], deviceId)]
      ensures r > 0 && desc[2] == 4 && release ==>
                cports == WithoutId(old(cports), desc[4] as int + 256 * desc[5] as int)
    {
      AcceptableHead(desc);
      if |desc| < HEADER_SIZE {
        return -EINVAL;
      }
      var descSize := Le16(desc, 0);
      if descSize > |desc| {
        return -EINVAL;
      }
      var expectedSize := HEADER_SIZE;
      ghost var d := desc[..descSize];
      assert descSize >= 4 ==> Le16(d, 0) == Le16(desc, 0) && d[2] == desc[2];
      AfterOne(cports, d, deviceId);
      if desc[2] == TYPE_STRING {
        expectedSize := expectedSize + 2;
        expectedSize := expectedSize + (if |desc| > 4 then desc[4] else beyond);
        expectedSize := Align(expectedSize);
      } else if desc[2] == TYPE_INTERFACE || desc[2] == TYPE_BUNDLE {
        expectedSize := expectedSize + 4;
      } else if desc[2] == TYPE_CPORT {
        expectedSize := expectedSize + 4;
        if descSize >= expectedSize {
          assert CPortsOf(d, deviceId) == [CPort(Le16(desc, 4), desc[7], deviceId)];
          if !release {
            AllocCport(CPort(Le16(desc, 4), desc[7], deviceId));
          } else {
            FreeCport(Le16(desc, 4));
          }
        }
      } else {
        return -EINVAL;
      }
      if descSize < expectedSize {
        return -EINVAL;
      }
      return descSize;
    }

    // _manifest_parse. A parse that fails half-way keeps what it has registered.
    method Parse(data: seq<byte>, release: bool, beyond: byte) returns (ok: bool)
      requires release ==> |data| >= HEADER_SIZE
      modifies this`cports
      ensures !release && !HeaderOk(data) ==> !ok && cports == old(cports)
      ensures HeaderOk(data) <==> |data| > 4 && data[0] as int + 256 * data[1] as int == |data| && data[2] == 0
      ensures release || HeaderOk(data) ==> (ok <==> Rest(data[4..]) == [])
      ensures release || HeaderOk(data) ==> cports == After(old(cports), Descriptors(data[4..]), deviceId, release)
    {
      if !release {
        if |data| <= HEADER_SIZE {
          return false;
        }
        if Le16(data, 0) != |data| {
          return false;
        }
        if data[2] > VERSION_MAJOR {
          return false;
        }
      }
      ok := ParseDescriptors(data[4..], release, beyond);
    }

    // The loop of _manifest_parse over the bytes after the header.
    method ParseDescriptors(body: seq<byte>, release: bool, beyond: byte) returns (ok: bool)
      modifies this`cports
      ensures ok <==> Rest(body) == []
      ensures cports == After(old(cports), Descriptors(body), deviceId, release)
    {
      hide Acceptable, WithoutId, HeadSize, Le16, After;
      NoneAfter(cports, deviceId, release);
      var desc := body;
      ghost var done: seq<seq<byte>> := [];
      while |desc| > 0
        invariant Descriptors(body) == done + Descriptors(desc) && Rest(body) == Rest(desc)
        invariant cports == After(old(cports), done, deviceId, release)
        decreases |desc|
      {
        var descSize := IdentifyDescriptor(desc, release, beyond);
        if descSize <= 0 {
          assert done + [] == done;
          return false;
        }
        ghost var d := desc[..descSize];
        AfterOneMore(old(cports), done, d, deviceId, release);
        assert done + ([d] + Descriptors(desc[descSize..])) == (done + [d]) + Descriptors(desc[descSize..]);
        done := done + [d];
        desc := desc[descSize..];
      }
      assert done + [] == done;
      return true;
    }
  }

  ghost predicate HeaderOk(data: seq<byte>) {
    |data| > HEADER_SIZE && Le16(data, 0) == |data| && data[2] <= VERSION_MAJOR
  }

  lemma {:induction false} AllCPortsSplits(a: seq<seq<byte>>, b: seq<seq<byte>>, deviceId: int)
    ensures AllCPorts(a + b, deviceId) == AllCPorts(a, deviceId) + AllCPorts(b, deviceId)
  {
    hide CPortsOf, AllCPorts;
    if a == [] {
      assert a + b == b;
      NoCPorts(deviceId);
    } else {
      AllCPortsSplits(a[1..], b, deviceId);
      assert (a + b)[1..] == a[1..] + b;
      FirstCPorts(a, deviceId);
      FirstCPorts(a + b, deviceId);
    }
  }

  lemma NoCPorts(deviceId: int)
    ensures AllCPorts([], deviceId) == []
  {
  }

  lemma FirstCPorts(ds: seq<seq<byte>>, deviceId: int)
    requires ds != []
    ensures AllCPorts(ds, deviceId) == CPortsOf(ds[0], deviceId) + AllCPorts(ds[1..], deviceId)
  {
  }

  lemma {:induction false} ReleasedSplits(cports: seq<CPort>, a: seq<CPort>, b: seq<CPort>)
    ensures Released(cports, a + b) == Released(Released(cports, a), b)
    decreases a
  {
    if a == [] {
      assert a + b == b;
    } else {
      ReleasedSplits(WithoutId(cports, a[0].id), a[1..], b);
      assert (a + b)[1..] == a[1..] + b;
    }
  }
}
