/** The cached powers of ten of the double printer, and the proof that each is within half a unit
    of the power it stands for. */
module PowersTen {
  import opened Powers

  /** A 64-bit significand and a binary exponent. */
  datatype Fp = Fp(frac: nat, exp: int)

  const NPOWERS: nat := 87
  const STEPPOWERS: int := 8
  const FIRSTPOWER: int := -348

  function PowersFrom0(i: nat): Fp {
    if i == 0 then Fp(18054884314459144840, -1220)
    else if i == 1 then Fp(13451937075301367670, -1193)
    else if i == 2 then Fp(10022474136428063862, -1166)
    else if i == 3 then Fp(14934650266808366570, -1140)
    else if i == 4 then Fp(11127181549972568877, -1113)
    else if i == 5 then Fp(16580792590934885855, -1087)
    else if i == 6 then Fp(12353653155963782858, -1060)
    else Fp(18408377700990114895, -1034)
  }

  function PowersFrom8(i: nat): Fp {
    if i == 8 then Fp(13715310171984221708, -1007)
    else if i == 9 then Fp(10218702384817765436, -980)
    else if i == 10 then Fp(15227053142812498563, -954)
    else if i == 11 then Fp(11345038669416679861, -927)
    else if i == 12 then Fp(16905424996341287883, -901)
    else if i == 13 then Fp(12595523146049147757, -874)
    else if i == 14 then Fp(9384396036005875287, -847)
    else Fp(13983839803942852151, -821)
  }

  function PowersFrom16(i: nat): Fp {
    if i == 16 then Fp(10418772551374772303, -794)
    else if i == 17 then Fp(15525180923007089351, -768)
    else if i == 18 then Fp(11567161174868858868, -741)
    else if i == 19 then Fp(17236413322193710309, -715)
    else if i == 20 then Fp(12842128665889583758, -688)
    else if i == 21 then Fp(9568131466127621947, -661)
    else if i == 22 then Fp(14257626930069360058, -635)
    else Fp(10622759856335341974, -608)
  }

  function PowersFrom24(i: nat): Fp {
    if i == 24 then Fp(15829145694278690180, -582)
    else if i == 25 then Fp(11793632577567316726, -555)
    else if i == 26 then Fp(17573882009934360870, -529)
    else if i == 27 then Fp(13093562431584567480, -502)
    else if i == 28 then Fp(9755464219737475723, -475)
    else if i == 29 then Fp(14536774485912137811, -449)
    else if i == 30 then Fp(10830740992659433045, -422)
    else Fp(16139061738043178685, -396)
  }

  function PowersFrom32(i: nat): Fp {
    if i == 32 then Fp(12024538023802026127, -369)
    else if i == 33 then Fp(17917957937422433684, -343)
    else if i == 34 then Fp(13349918974505688015, -316)
    else if i == 35 then Fp(9946464728195732843, -289)
    else if i == 36 then Fp(14821387422376473014, -263)
    else if i == 37 then Fp(11042794154864902060, -236)
    else if i == 38 then Fp(16455045573212060422, -210)
    else Fp(12259964326927110867, -183)
  }

  function PowersFrom40(i: nat): Fp {
    if i == 40 then Fp(18268770466636286478, -157)
    else if i == 41 then Fp(13611294676837538539, -130)
    else if i == 42 then Fp(10141204801825835212, -103)
    else if i == 43 then Fp(15111572745182864684, -77)
    else if i == 44 then Fp(11258999068426240000, -50)
    else if i == 45 then Fp(16777216000000000000, -24)
    else if i == 46 then Fp(12500000000000000000, 3)
    else Fp(9313225746154785156, 30)
  }

  function PowersFrom48(i: nat): Fp {
    if i == 48 then Fp(13877787807814456755, 56)
    else if i == 49 then Fp(10339757656912845936, 83)
    else if i == 50 then Fp(15407439555097886824, 109)
    else if i == 51 then Fp(11479437019748901445, 136)
    else if i == 52 then Fp(17105694144590052135, 162)
    else if i == 53 then Fp(12744735289059618216, 189)
    else if i == 54 then Fp(9495567745759798747, 216)
    else Fp(14149498560666738074, 242)
  }

  function PowersFrom56(i: nat): Fp {
    if i == 56 then Fp(10542197943230523224, 269)
    else if i == 57 then Fp(15709099088952724970, 295)
    else if i == 58 then Fp(11704190886730495818, 322)
    else if i == 59 then Fp(17440603504673385349, 348)
    else if i == 60 then Fp(12994262207056124023, 375)
    else if i == 61 then Fp(9681479787123295682, 402)
    else if i == 62 then Fp(14426529090290212157, 428)
    else Fp(10748601772107342003, 455)
  }

  function PowersFrom64(i: nat): Fp {
    if i == 64 then Fp(16016664761464807395, 481)
    else if i == 65 then Fp(11933345169920330789, 508)
    else if i == 66 then Fp(17782069995880619868, 534)
    else if i == 67 then Fp(13248674568444952270, 561)
    else if i == 68 then Fp(9871031767461413346, 588)
    else if i == 69 then Fp(14708983551653345445, 614)
    else if i == 70 then Fp(10959046745042015199, 641)
    else Fp(16330252207878254650, 667)
  }

  function PowersFrom72(i: nat): Fp {
    if i == 72 then Fp(12166986024289022870, 694)
    else if i == 73 then Fp(18130221999122236476, 720)
    else if i == 74 then Fp(13508068024458167312, 747)
    else if i == 75 then Fp(10064294952495520794, 774)
    else if i == 76 then Fp(14996968138956309548, 800)
    else if i == 77 then Fp(11173611982879273257, 827)
    else if i == 78 then Fp(16649979327439178909, 853)
    else Fp(12405201291620119593, 880)
  }

  function PowersFrom80(i: nat): Fp {
    if i == 80 then Fp(9242595204427927429, 907)
    else if i == 81 then Fp(13772540099066387757, 933)
    else if i == 82 then Fp(10261342003245940623, 960)
    else if i == 83 then Fp(15290591125556738113, 986)
    else if i == 84 then Fp(11392378155556871081, 1013)
    else if i == 85 then Fp(16975966327722178521, 1039)
    else Fp(12648080533535911531, 1066)
  }

  /** Entry `i` of the table; it stands for 10 to the power `TenExp(i)`. */
  function CachedPower(i: nat): Fp
    requires i < NPOWERS
  {
    if i < 8 then PowersFrom0(i)
    else if i < 16 then PowersFrom8(i)
    else if i < 24 then PowersFrom16(i)
    else if i < 32 then PowersFrom24(i)
    else if i < 40 then PowersFrom32(i)
    else if i < 48 then PowersFrom40(i)
    else if i < 56 then PowersFrom48(i)
    else if i < 64 then PowersFrom56(i)
    else if i < 72 then PowersFrom64(i)
    else if i < 80 then PowersFrom72(i)
    else PowersFrom80(i)
  }

  function TenExp(i: int): int {
    FIRSTPOWER + i * STEPPOWERS
  }

  /** `c * 2^exp` is within half a unit of `10^k`. */
  ghost predicate Accurate(c: Fp, k: int) {
    var unit := RPow(2.0, c.exp);
    -unit <= 2.0 * (c.frac as real * unit - RPow(10.0, k)) <= unit
  }

  function Abs(x: int): nat { if x < 0 then -x else x }

  /** Neighbouring entries are 26 or 27 binary places apart. */
  function Gap(i: nat): nat
    requires i < NPOWERS - 1
  {
    if CachedPower(i + 1).exp - CachedPower(i).exp == 26 then 26 else 27
  }

  function TwoToGap(i: nat): nat
    requires i < NPOWERS - 1
  {
    if Gap(i) == 26 then 0x400_0000 else 0x800_0000
  }

  lemma Gaps(i: nat)
    requires i < NPOWERS - 1
    ensures CachedPower(i + 1).exp - CachedPower(i).exp == Gap(i)
    ensures Pow(2, Gap(i)) == TwoToGap(i)
  {
    hide Pow;
    FirstPowers();
  }

  lemma TableShape(i: nat)
    requires i < NPOWERS
    ensures Pow2Range(CachedPower(i).frac)
  {
  }

  predicate Pow2Range(c: nat) {
    0x8000_0000_0000_0000 <= c < 0x1_0000_0000_0000_0000
  }

  /// Entries from 10^20 up: both powers are integers

  /** The `n` entries from `i` on, checked in integers against the exact powers `ten` and `two`. */
  predicate CheckUp(i: nat, n: nat, ten: nat, two: nat)
    requires i + n < NPOWERS + 1
    decreases n
  {
    n == 0 ||
    (2 * Abs(CachedPower(i).frac * two - ten) <= two &&
     (n == 1 || CheckUp(i + 1, n - 1, ten * 1_0000_0000, two * TwoToGap(i))))
  }

  lemma {:induction false} UpMeans(i: nat, n: nat, j: nat)
    requires 46 <= i <= j < i + n <= NPOWERS && CachedPower(i).exp >= 0
    requires CheckUp(i, n, Pow(10, TenExp(i)), Pow(2, CachedPower(i).exp))
    ensures Accurate(CachedPower(j), TenExp(j))
    decreases n
  {
    hide CachedPower, Pow;
    var e := CachedPower(i).exp;
    if i == j {
      UpEntry(CachedPower(i), TenExp(i));
    } else {
      Gaps(i);
      PowAdd(10, TenExp(i), 8);
      FirstPowers();
      PowAdd(2, e, Gap(i));
      UpMeans(i + 1, n - 1, j);
    }
  }

  lemma UpEntry(c: Fp, k: nat)
    requires c.exp >= 0 && 2 * Abs(c.frac * Pow(2, c.exp) - Pow(10, k)) <= Pow(2, c.exp)
    ensures Accurate(c, k)
  {
    hide RPow, Pow;
    RPowNat(2, c.exp);
    RPowNat(10, k);
    CastMul(c.frac, Pow(2, c.exp));
  }

  /// Entries below 10^0: both powers are reciprocals of integers

  predicate CheckDown(i: nat, n: nat, ten: nat, two: nat)
    requires n <= i + 1 && i < NPOWERS
    decreases n
  {
    n == 0 ||
    (2 * Abs(CachedPower(i).frac * ten - two) <= ten &&
     (n == 1 || CheckDown(i - 1, n - 1, ten * 1_0000_0000, two * TwoToGap(i - 1))))
  }

  lemma {:induction false} DownMeans(i: nat, n: nat, j: nat)
    requires i - n < j <= i <= 43 && n <= i + 1 && CachedPower(i).exp <= 0
    requires CheckDown(i, n, Pow(10, -TenExp(i)), Pow(2, -CachedPower(i).exp))
    ensures Accurate(CachedPower(j), TenExp(j))
    decreases n
  {
    hide CachedPower, Pow;
    var e := CachedPower(i).exp;
    if i == j {
      DownEntry(CachedPower(i), TenExp(i));
    } else {
      Gaps(i - 1);
      PowAdd(10, -TenExp(i), 8);
      FirstPowers();
      PowAdd(2, -e, Gap(i - 1));
      DownMeans(i - 1, n - 1, j);
    }
  }

  lemma DownEntry(c: Fp, k: int)
    requires c.exp <= 0 && k <= 0 && 2 * Abs(c.frac * Pow(10, -k) - Pow(2, -c.exp)) <= Pow(10, -k)
    ensures Accurate(c, k)
  {
    hide RPow, Pow;
    var t, w := Pow(10, -k), Pow(2, -c.exp);
    RPowNat(10, -k);
    RPowNat(2, -c.exp);
    RPowInverse(2.0, c.exp);
    RPowInverse(10.0, k);
    CastBounds(c.frac, t, w);
    Reciprocals(c.frac as real, t as real, w as real, RPow(2.0, c.exp), RPow(10.0, k));
  }

  lemma CastBounds(f: nat, t: nat, w: nat)
    requires 2 * Abs(f * t - w) <= t
    ensures -(t as real) <= 2.0 * (f as real * t as real - w as real) <= t as real
  {
    CastMul(f, t);
    var p := f * t;
    assert -(t as int) <= 2 * (p - w) <= t;
  }

  lemma Reciprocals(c: real, t: real, w: real, a: real, b: real)
    requires t > 0.0 && w > 0.0 && a * w == 1.0 && b * t == 1.0
    requires -t <= 2.0 * (c * t - w) <= t
    ensures -a <= 2.0 * (c * a - b) <= a
  {
    var s := w * t;
    assert s > 0.0;
    assert s * (2.0 * (c * a - b)) == 2.0 * (c * t - w) by {
      assert s * (c * a) == c * t * (a * w);
      assert s * b == w * (b * t);
    }
    assert s * a == t * (a * w) && s * (-a) == -t * (a * w);
    ROrder(s, 2.0 * (c * a - b), a);
    ROrder(s, -a, 2.0 * (c * a - b));
  }

  /// The groups of the table, each with the exact powers it starts from

  lemma UpChecked46()
    ensures CheckUp(46, 3, 100000000000000000000, 8)
  {
  }

  lemma UpFrom46()
    ensures Pow(10, 20) == 100000000000000000000
    ensures Pow(2, 3) == 8
  {
    hide Pow;
    FirstPowers();
  }

  lemma UpChecked49()
    ensures CheckUp(49, 3, 100000000000000000000000000000000000000000000, 9671406556917033397649408)
  {
  }

  lemma UpFrom49()
    ensures Pow(10, 44) == 100000000000000000000000000000000000000000000
    ensures Pow(2, 83) == 9671406556917033397649408
  {
    hide Pow;
    UpFrom46();
    StepPowers(20, 3, 100000000000000000000, 8);
  }

  lemma UpChecked52()
    ensures CheckUp(52, 3, 100000000000000000000000000000000000000000000000000000000000000000000, 5846006549323611672814739330865132078623730171904)
  {
  }

  lemma UpFrom52()
    ensures Pow(10, 68) == 100000000000000000000000000000000000000000000000000000000000000000000
    ensures Pow(2, 162) == 5846006549323611672814739330865132078623730171904
  {
    hide Pow;
    UpFrom49();
    StepPowers(44, 83, 100000000000000000000000000000000000000000000, 9671406556917033397649408);
  }

  lemma UpChecked55()
    ensures CheckUp(55, 3, 100000000000000000000000000000000000000000000000000000000000000000000000000000000000000000000, 7067388259113537318333190002971674063309935587502475832486424805170479104)
  {
  }

  lemma UpFrom55()
    ensures Pow(10, 92) == 100000000000000000000000000000000000000000000000000000000000000000000000000000000000000000000
    ensures Pow(2, 242) == 7067388259113537318333190002971674063309935587502475832486424805170479104
  {
    hide Pow;
    UpFrom52();
    StepPowers(68, 162, 100000000000000000000000000000000000000000000000000000000000000000000, 5846006549323611672814739330865132078623730171904);
  }

  lemma UpChecked58()
    ensures CheckUp(58, 3, 100000000000000000000000000000000000000000000000000000000000000000000000000000000000000000000000000000000000000000000, 8543948143683640329580086824678208458410818089426611079788166431288878903122562200091848347746304)
  {
  }

  lemma UpFrom58()
    ensures Pow(10, 116) == 100000000000000000000000000000000000000000000000000000000000000000000000000000000000000000000000000000000000000000000
    ensures Pow(2, 322) == 8543948143683640329580086824678208458410818089426611079788166431288878903122562200091848347746304
  {
    hide Pow;
    UpFrom55();
    StepPowers(92, 242, 100000000000000000000000000000000000000000000000000000000000000000000000000000000000000000000, 7067388259113537318333190002971674063309935587502475832486424805170479104);
  }

  lemma UpChecked61()
    ensures CheckUp(61, 3, 100000000000000000000000000000000000000000000000000000000000000000000000000000000000000000000000000000000000000000000000000000000000000000000, 10328999512347634358623676688012047497318823171316894051322637426162590488067364778518581413120551325743612687890989973504)
  {
  }

  lemma UpFrom61()
    ensures Pow(10, 140) == 100000000000000000000000000000000000000000000000000000000000000000000000000000000000000000000000000000000000000000000000000000000000000000000
    ensures Pow(2, 402) == 10328999512347634358623676688012047497318823171316894051322637426162590488067364778518581413120551325743612687890989973504
  {
    hide Pow;
    UpFrom58();
    StepPowers(116, 322, 100000000000000000000000000000000000000000000000000000000000000000000000000000000000000000000000000000000000000000000, 8543948143683640329580086824678208458410818089426611079788166431288878903122562200091848347746304);
  }

  lemma UpChecked64()
    ensures CheckUp(64, 3, 100000000000000000000000000000000000000000000000000000000000000000000000000000000000000000000000000000000000000000000000000000000000000000000000000000000000000000000, 6243497100631984462763194459586332611497196285329942301718313919250743477639531240240612206126983942319653862242813245790895951358576570612580352)
  {
  }

  lemma UpFrom64()
    ensures Pow(10, 164) == 100000000000000000000000000000000000000000000000000000000000000000000000000000000000000000000000000000000000000000000000000000000000000000000000000000000000000000000
    ensures Pow(2, 481) == 6243497100631984462763194459586332611497196285329942301718313919250743477639531240240612206126983942319653862242813245790895951358576570612580352
  {
    hide Pow;
    UpFrom61();
    StepPowers(140, 402, 100000000000000000000000000000000000000000000000000000000000000000000000000000000000000000000000000000000000000000000000000000000000000000000, 10328999512347634358623676688012047497318823171316894051322637426162590488067364778518581413120551325743612687890989973504);
  }

  lemma UpChecked67()
    ensures CheckUp(67, 3, 100000000000000000000000000000000000000000000000000000000000000000000000000000000000000000000000000000000000000000000000000000000000000000000000000000000000000000000000000000000000000000000, 7547924849643082704483109161976537781833842440832880856752412600491248324784297704172253450355317535082936750061527689799541169259849585265122868502865392087298790653952)
  {
  }

  lemma UpFrom67()
    ensures Pow(10, 188) == 100000000000000000000000000000000000000000000000000000000000000000000000000000000000000000000000000000000000000000000000000000000000000000000000000000000000000000000000000000000000000000000
    ensures Pow(2, 561) == 7547924849643082704483109161976537781833842440832880856752412600491248324784297704172253450355317535082936750061527689799541169259849585265122868502865392087298790653952
  {
    hide Pow;
    UpFrom64();
    StepPowers(164, 481, 100000000000000000000000000000000000000000000000000000000000000000000000000000000000000000000000000000000000000000000000000000000000000000000000000000000000000000000, 6243497100631984462763194459586332611497196285329942301718313919250743477639531240240612206126983942319653862242813245790895951358576570612580352);
  }

  lemma UpChecked70()
    ensures CheckUp(70, 3, 100000000000000000000000000000000000000000000000000000000000000000000000000000000000000000000000000000000000000000000000000000000000000000000000000000000000000000000000000000000000000000000000000000000000000000000, 9124881235244390437282343211400582649786457014497119861158385035798550334417354773011825622634742799557284619147188814621377409442750875996505322639444428376503989348720529900165748384493207552)
  {
  }

  lemma UpFrom70()
    ensures Pow(10, 212) == 100000000000000000000000000000000000000000000000000000000000000000000000000000000000000000000000000000000000000000000000000000000000000000000000000000000000000000000000000000000000000000000000000000000000000000000
    ensures Pow(2, 641) == 9124881235244390437282343211400582649786457014497119861158385035798550334417354773011825622634742799557284619147188814621377409442750875996505322639444428376503989348720529900165748384493207552
  {
    hide Pow;
    UpFrom67();
    StepPowers(188, 561, 100000000000000000000000000000000000000000000000000000000000000000000000000000000000000000000000000000000000000000000000000000000000000000000000000000000000000000000000000000000000000000000, 7547924849643082704483109161976537781833842440832880856752412600491248324784297704172253450355317535082936750061527689799541169259849585265122868502865392087298790653952);
  }

  lemma UpChecked73()
    ensures CheckUp(73, 3, 100000000000000000000000000000000000000000000000000000000000000000000000000000000000000000000000000000000000000000000000000000000000000000000000000000000000000000000000000000000000000000000000000000000000000000000000000000000000000000000, 5515652263101987298728728207430913795608113109085112352897269396216198887424215820128660001943808587833784893551335930816647064191168732319583111500951066614122648616177179922993422016587311577585463592732098692120576)
  {
  }

  lemma UpFrom73()
    ensures Pow(10, 236) == 100000000000000000000000000000000000000000000000000000000000000000000000000000000000000000000000000000000000000000000000000000000000000000000000000000000000000000000000000000000000000000000000000000000000000000000000000000000000000000000
    ensures Pow(2, 720) == 5515652263101987298728728207430913795608113109085112352897269396216198887424215820128660001943808587833784893551335930816647064191168732319583111500951066614122648616177179922993422016587311577585463592732098692120576
  {
    hide Pow;
    UpFrom70();
    StepPowers(212, 641, 100000000000000000000000000000000000000000000000000000000000000000000000000000000000000000000000000000000000000000000000000000000000000000000000000000000000000000000000000000000000000000000000000000000000000000000, 9124881235244390437282343211400582649786457014497119861158385035798550334417354773011825622634742799557284619147188814621377409442750875996505322639444428376503989348720529900165748384493207552);
  }

  lemma UpChecked76()
    ensures CheckUp(76, 3, 100000000000000000000000000000000000000000000000000000000000000000000000000000000000000000000000000000000000000000000000000000000000000000000000000000000000000000000000000000000000000000000000000000000000000000000000000000000000000000000000000000000000000000000, 6668014432879854274079851790721257797144758322315908160396257811764037237817632071521432200871554290742929910593433240445888801654119365080363356052330830046095157579514014558463078285911814024728965016135886601981690748037476461291163877376)
  {
  }

  lemma UpFrom76()
    ensures Pow(10, 260) == 100000000000000000000000000000000000000000000000000000000000000000000000000000000000000000000000000000000000000000000000000000000000000000000000000000000000000000000000000000000000000000000000000000000000000000000000000000000000000000000000000000000000000000000
    ensures Pow(2, 800) == 6668014432879854274079851790721257797144758322315908160396257811764037237817632071521432200871554290742929910593433240445888801654119365080363356052330830046095157579514014558463078285911814024728965016135886601981690748037476461291163877376
  {
    hide Pow;
    UpFrom73();
    StepPowers(236, 720, 100000000000000000000000000000000000000000000000000000000000000000000000000000000000000000000000000000000000000000000000000000000000000000000000000000000000000000000000000000000000000000000000000000000000000000000000000000000000000000000, 5515652263101987298728728207430913795608113109085112352897269396216198887424215820128660001943808587833784893551335930816647064191168732319583111500951066614122648616177179922993422016587311577585463592732098692120576);
  }

  lemma UpChecked79()
    ensures CheckUp(79, 3, 100000000000000000000000000000000000000000000000000000000000000000000000000000000000000000000000000000000000000000000000000000000000000000000000000000000000000000000000000000000000000000000000000000000000000000000000000000000000000000000000000000000000000000000000000000000000000000000, 8061134813471454564702450331367746071149403778627342561766978592325956765086744071570087522699847227396765060321916636335485039665263146015175460486800225477728068298324662539195732386420081192825687147647265448061340763744378078290380812053940375922997109693874176)
  {
  }

  lemma UpFrom79()
    ensures Pow(10, 284) == 100000000000000000000000000000000000000000000000000000000000000000000000000000000000000000000000000000000000000000000000000000000000000000000000000000000000000000000000000000000000000000000000000000000000000000000000000000000000000000000000000000000000000000000000000000000000000000000
    ensures Pow(2, 880) == 8061134813471454564702450331367746071149403778627342561766978592325956765086744071570087522699847227396765060321916636335485039665263146015175460486800225477728068298324662539195732386420081192825687147647265448061340763744378078290380812053940375922997109693874176
  {
    hide Pow;
    UpFrom76();
    StepPowers(260, 800, 100000000000000000000000000000000000000000000000000000000000000000000000000000000000000000000000000000000000000000000000000000000000000000000000000000000000000000000000000000000000000000000000000000000000000000000000000000000000000000000000000000000000000000000, 6668014432879854274079851790721257797144758322315908160396257811764037237817632071521432200871554290742929910593433240445888801654119365080363356052330830046095157579514014558463078285911814024728965016135886601981690748037476461291163877376);
  }

  lemma UpChecked82()
    ensures CheckUp(82, 3, 100000000000000000000000000000000000000000000000000000000000000000000000000000000000000000000000000000000000000000000000000000000000000000000000000000000000000000000000000000000000000000000000000000000000000000000000000000000000000000000000000000000000000000000000000000000000000000000000000000000000000000000, 9745314011399999080353382387875188310876226857595007526867906457212948690766426102465615065882010259225304916231408668183459169865203094046577987296312653419531277699956473029870789655490053648352799593479218378873685597925394874945746363615468965612827738803104277547081828589991914110976)
  {
  }

  lemma UpFrom82()
    ensures Pow(10, 308) == 100000000000000000000000000000000000000000000000000000000000000000000000000000000000000000000000000000000000000000000000000000000000000000000000000000000000000000000000000000000000000000000000000000000000000000000000000000000000000000000000000000000000000000000000000000000000000000000000000000000000000000000
    ensures Pow(2, 960) == 9745314011399999080353382387875188310876226857595007526867906457212948690766426102465615065882010259225304916231408668183459169865203094046577987296312653419531277699956473029870789655490053648352799593479218378873685597925394874945746363615468965612827738803104277547081828589991914110976
  {
    hide Pow;
    UpFrom79();
    StepPowers(284, 880, 100000000000000000000000000000000000000000000000000000000000000000000000000000000000000000000000000000000000000000000000000000000000000000000000000000000000000000000000000000000000000000000000000000000000000000000000000000000000000000000000000000000000000000000000000000000000000000000, 8061134813471454564702450331367746071149403778627342561766978592325956765086744071570087522699847227396765060321916636335485039665263146015175460486800225477728068298324662539195732386420081192825687147647265448061340763744378078290380812053940375922997109693874176);
  }

  lemma UpChecked85()
    ensures CheckUp(85, 2, 100000000000000000000000000000000000000000000000000000000000000000000000000000000000000000000000000000000000000000000000000000000000000000000000000000000000000000000000000000000000000000000000000000000000000000000000000000000000000000000000000000000000000000000000000000000000000000000000000000000000000000000000000000000000000000000, 5890680864316836766447387249177476247119386964598150177535756899376584320794655559932591384900650140340063891615625817543763223144510803885845624607194288107610698331745992221533871131893632012106238622173921469033288521558997823700137184806201826907368669534112523820726591354912103343876844956209126576528293888)
  {
  }

  lemma UpFrom85()
    ensures Pow(10, 332) == 100000000000000000000000000000000000000000000000000000000000000000000000000000000000000000000000000000000000000000000000000000000000000000000000000000000000000000000000000000000000000000000000000000000000000000000000000000000000000000000000000000000000000000000000000000000000000000000000000000000000000000000000000000000000000000000
    ensures Pow(2, 1039) == 5890680864316836766447387249177476247119386964598150177535756899376584320794655559932591384900650140340063891615625817543763223144510803885845624607194288107610698331745992221533871131893632012106238622173921469033288521558997823700137184806201826907368669534112523820726591354912103343876844956209126576528293888
  {
    hide Pow;
    UpFrom82();
    StepPowers(308, 960, 100000000000000000000000000000000000000000000000000000000000000000000000000000000000000000000000000000000000000000000000000000000000000000000000000000000000000000000000000000000000000000000000000000000000000000000000000000000000000000000000000000000000000000000000000000000000000000000000000000000000000000000, 9745314011399999080353382387875188310876226857595007526867906457212948690766426102465615065882010259225304916231408668183459169865203094046577987296312653419531277699956473029870789655490053648352799593479218378873685597925394874945746363615468965612827738803104277547081828589991914110976);
  }

  lemma DownChecked43()
    ensures CheckDown(43, 3, 10000, 151115727451828646838272)
  {
  }

  lemma DownFrom43()
    ensures Pow(10, 4) == 10000
    ensures Pow(2, 77) == 151115727451828646838272
  {
    hide Pow;
    FirstPowers();
  }

  lemma DownChecked40()
    ensures CheckDown(40, 3, 10000000000000000000000000000, 182687704666362864775460604089535377456991567872)
  {
  }

  lemma DownFrom40()
    ensures Pow(10, 28) == 10000000000000000000000000000
    ensures Pow(2, 157) == 182687704666362864775460604089535377456991567872
  {
    hide Pow;
    DownFrom43();
    StepPowers(4, 77, 10000, 151115727451828646838272);
  }

  lemma DownChecked37()
    ensures CheckDown(37, 3, 10000000000000000000000000000000000000000000000000000, 110427941548649020598956093796432407239217743554726184882600387580788736)
  {
  }

  lemma DownFrom37()
    ensures Pow(10, 52) == 10000000000000000000000000000000000000000000000000000
    ensures Pow(2, 236) == 110427941548649020598956093796432407239217743554726184882600387580788736
  {
    hide Pow;
    DownFrom40();
    StepPowers(28, 157, 10000000000000000000000000000, 182687704666362864775460604089535377456991567872);
  }

  lemma DownChecked34()
    ensures CheckDown(34, 3, 10000000000000000000000000000000000000000000000000000000000000000000000000000, 133499189745056880149688856635597007162669032647290798121690100488888732861290034376435130433536)
  {
  }

  lemma DownFrom34()
    ensures Pow(10, 76) == 10000000000000000000000000000000000000000000000000000000000000000000000000000
    ensures Pow(2, 316) == 133499189745056880149688856635597007162669032647290798121690100488888732861290034376435130433536
  {
    hide Pow;
    DownFrom37();
    StepPowers(52, 236, 10000000000000000000000000000000000000000000000000000, 110427941548649020598956093796432407239217743554726184882600387580788736);
  }

  lemma DownChecked31()
    ensures CheckDown(31, 3, 10000000000000000000000000000000000000000000000000000000000000000000000000000000000000000000000000000, 161390617380431786853494948250188242145606612051826469551916209783790476376052574664352834580008614464743948248296718336)
  {
  }

  lemma DownFrom31()
    ensures Pow(10, 100) == 10000000000000000000000000000000000000000000000000000000000000000000000000000000000000000000000000000
    ensures Pow(2, 396) == 161390617380431786853494948250188242145606612051826469551916209783790476376052574664352834580008614464743948248296718336
  {
    hide Pow;
    DownFrom34();
    StepPowers(76, 316, 10000000000000000000000000000000000000000000000000000000000000000000000000000, 133499189745056880149688856635597007162669032647290798121690100488888732861290034376435130433536);
  }

  lemma DownChecked28()
    ensures CheckDown(28, 3, 10000000000000000000000000000000000000000000000000000000000000000000000000000000000000000000000000000000000000000000000000000, 97554642197374757230674913431036447054643691958280348464348654988292866838117675628759565720734124098744591597543956965482749239977758915821568)
  {
  }

  lemma DownFrom28()
    ensures Pow(10, 124) == 10000000000000000000000000000000000000000000000000000000000000000000000000000000000000000000000000000000000000000000000000000
    ensures Pow(2, 475) == 97554642197374757230674913431036447054643691958280348464348654988292866838117675628759565720734124098744591597543956965482749239977758915821568
  {
    hide Pow;
    DownFrom31();
    StepPowers(100, 396, 10000000000000000000000000000000000000000000000000000000000000000000000000000000000000000000000000000, 161390617380431786853494948250188242145606612051826469551916209783790476376052574664352834580008614464743948248296718336);
  }

  lemma DownChecked25()
    ensures CheckDown(25, 3, 10000000000000000000000000000000000000000000000000000000000000000000000000000000000000000000000000000000000000000000000000000000000000000000000000000, 117936325775673167257548580655883402841153788138013763386756446882675755074754651627691460161801836485670886719711370153117830769685149769767544820357271751364043603968)
  {
  }

  lemma DownFrom25()
    ensures Pow(10, 148) == 10000000000000000000000000000000000000000000000000000000000000000000000000000000000000000000000000000000000000000000000000000000000000000000000000000
    ensures Pow(2, 555) == 117936325775673167257548580655883402841153788138013763386756446882675755074754651627691460161801836485670886719711370153117830769685149769767544820357271751364043603968
  {
    hide Pow;
    DownFrom28();
    StepPowers(124, 475, 10000000000000000000000000000000000000000000000000000000000000000000000000000000000000000000000000000000000000000000000000000, 97554642197374757230674913431036447054643691958280348464348654988292866838117675628759565720734124098744591597543956965482749239977758915821568);
  }

  lemma DownChecked22()
    ensures CheckDown(22, 3, 10000000000000000000000000000000000000000000000000000000000000000000000000000000000000000000000000000000000000000000000000000000000000000000000000000000000000000000000000000, 142576269300693600582536612678134103902913390851517497830599766184352348975271168328309775353667856243082572174174825228459022022542982437445395666241319193382874833573758279690089818507706368)
  {
  }

  lemma DownFrom22()
    ensures Pow(10, 172) == 10000000000000000000000000000000000000000000000000000000000000000000000000000000000000000000000000000000000000000000000000000000000000000000000000000000000000000000000000000
    ensures Pow(2, 635) == 142576269300693600582536612678134103902913390851517497830599766184352348975271168328309775353667856243082572174174825228459022022542982437445395666241319193382874833573758279690089818507706368
  {
    hide Pow;
    DownFrom25();
    StepPowers(148, 555, 10000000000000000000000000000000000000000000000000000000000000000000000000000000000000000000000000000000000000000000000000000000000000000000000000000, 117936325775673167257548580655883402841153788138013763386756446882675755074754651627691460161801836485670886719711370153117830769685149769767544820357271751364043603968);
  }

  lemma DownChecked19()
    ensures CheckDown(19, 3, 10000000000000000000000000000000000000000000000000000000000000000000000000000000000000000000000000000000000000000000000000000000000000000000000000000000000000000000000000000000000000000000000000000, 172364133221937103085272756482216056112753534658909761028039668631756215232006744379020625060744018369805777923479247838020220755974022884986972234404720831691332769255536872593544438018353486799545737272878084128768)
  {
  }

  lemma DownFrom19()
    ensures Pow(10, 196) == 10000000000000000000000000000000000000000000000000000000000000000000000000000000000000000000000000000000000000000000000000000000000000000000000000000000000000000000000000000000000000000000000000000
    ensures Pow(2, 715) == 172364133221937103085272756482216056112753534658909761028039668631756215232006744379020625060744018369805777923479247838020220755974022884986972234404720831691332769255536872593544438018353486799545737272878084128768
  {
    hide Pow;
    DownFrom22();
    StepPowers(172, 635, 10000000000000000000000000000000000000000000000000000000000000000000000000000000000000000000000000000000000000000000000000000000000000000000000000000000000000000000000000000, 142576269300693600582536612678134103902913390851517497830599766184352348975271168328309775353667856243082572174174825228459022022542982437445395666241319193382874833573758279690089818507706368);
  }

  lemma DownChecked16()
    ensures CheckDown(16, 3, 10000000000000000000000000000000000000000000000000000000000000000000000000000000000000000000000000000000000000000000000000000000000000000000000000000000000000000000000000000000000000000000000000000000000000000000000000000, 104187725513747723032497684230019653080386848786186065006191528308813081840900501117522378138618035792858279853022394381967012525845615079380677438317669219470236837179906477475985598217372094136390078377123228155963917938085569707674435584)
  {
  }

  lemma DownFrom16()
    ensures Pow(10, 220) == 10000000000000000000000000000000000000000000000000000000000000000000000000000000000000000000000000000000000000000000000000000000000000000000000000000000000000000000000000000000000000000000000000000000000000000000000000000
    ensures Pow(2, 794) == 104187725513747723032497684230019653080386848786186065006191528308813081840900501117522378138618035792858279853022394381967012525845615079380677438317669219470236837179906477475985598217372094136390078377123228155963917938085569707674435584
  {
    hide Pow;
    DownFrom19();
    StepPowers(196, 715, 10000000000000000000000000000000000000000000000000000000000000000000000000000000000000000000000000000000000000000000000000000000000000000000000000000000000000000000000000000000000000000000000000000, 172364133221937103085272756482216056112753534658909761028039668631756215232006744379020625060744018369805777923479247838020220755974022884986972234404720831691332769255536872593544438018353486799545737272878084128768);
  }

  lemma DownChecked13()
    ensures CheckDown(13, 3, 10000000000000000000000000000000000000000000000000000000000000000000000000000000000000000000000000000000000000000000000000000000000000000000000000000000000000000000000000000000000000000000000000000000000000000000000000000000000000000000000000000, 125955231460491477573475786427621032361709434041052227527609040505093074454480376118282617542185112928074454067529947442741953744769736656487116570106253523089501067161322852174933318537813768637901361681988522625958449433505907473287200188342818373796829838966784)
  {
  }

  lemma DownFrom13()
    ensures Pow(10, 244) == 10000000000000000000000000000000000000000000000000000000000000000000000000000000000000000000000000000000000000000000000000000000000000000000000000000000000000000000000000000000000000000000000000000000000000000000000000000000000000000000000000000
    ensures Pow(2, 874) == 125955231460491477573475786427621032361709434041052227527609040505093074454480376118282617542185112928074454067529947442741953744769736656487116570106253523089501067161322852174933318537813768637901361681988522625958449433505907473287200188342818373796829838966784
  {
    hide Pow;
    DownFrom16();
    StepPowers(220, 794, 10000000000000000000000000000000000000000000000000000000000000000000000000000000000000000000000000000000000000000000000000000000000000000000000000000000000000000000000000000000000000000000000000000000000000000000000000000, 104187725513747723032497684230019653080386848786186065006191528308813081840900501117522378138618035792858279853022394381967012525845615079380677438317669219470236837179906477475985598217372094136390078377123228155963917938085569707674435584);
  }

  lemma DownChecked10()
    ensures CheckDown(10, 3, 10000000000000000000000000000000000000000000000000000000000000000000000000000000000000000000000000000000000000000000000000000000000000000000000000000000000000000000000000000000000000000000000000000000000000000000000000000000000000000000000000000000000000000000000000000, 152270531428124985630521599810549817357441044649921992607311038393952323293225407851025235404406410300395389316115760440366549529143798344477781051504885209680176214061819891091731088367032088255512493648112787169901337467584294921027286931491702587700433418798504336673153571718623657984)
  {
  }

  lemma DownFrom10()
    ensures Pow(10, 268) == 10000000000000000000000000000000000000000000000000000000000000000000000000000000000000000000000000000000000000000000000000000000000000000000000000000000000000000000000000000000000000000000000000000000000000000000000000000000000000000000000000000000000000000000000000000
    ensures Pow(2, 954) == 152270531428124985630521599810549817357441044649921992607311038393952323293225407851025235404406410300395389316115760440366549529143798344477781051504885209680176214061819891091731088367032088255512493648112787169901337467584294921027286931491702587700433418798504336673153571718623657984
  {
    hide Pow;
    DownFrom13();
    StepPowers(244, 874, 10000000000000000000000000000000000000000000000000000000000000000000000000000000000000000000000000000000000000000000000000000000000000000000000000000000000000000000000000000000000000000000000000000000000000000000000000000000000000000000000000000, 125955231460491477573475786427621032361709434041052227527609040505093074454480376118282617542185112928074454067529947442741953744769736656487116570106253523089501067161322852174933318537813768637901361681988522625958449433505907473287200188342818373796829838966784);
  }

  lemma DownChecked7()
    ensures CheckDown(7, 3, 10000000000000000000000000000000000000000000000000000000000000000000000000000000000000000000000000000000000000000000000000000000000000000000000000000000000000000000000000000000000000000000000000000000000000000000000000000000000000000000000000000000000000000000000000000000000000000000000000000, 184083777009901148951480851536796132722480842643692193047992403105518260024832986247893480778145316885626996612988306798242600723265962621432675768974821503362834322867062256922933472871676000378319956942935045907290266298718681990629287025193807090855270922941016369397705979841003229496151404881535205516509184)
  {
  }

  lemma DownFrom7()
    ensures Pow(10, 292) == 10000000000000000000000000000000000000000000000000000000000000000000000000000000000000000000000000000000000000000000000000000000000000000000000000000000000000000000000000000000000000000000000000000000000000000000000000000000000000000000000000000000000000000000000000000000000000000000000000000
    ensures Pow(2, 1034) == 184083777009901148951480851536796132722480842643692193047992403105518260024832986247893480778145316885626996612988306798242600723265962621432675768974821503362834322867062256922933472871676000378319956942935045907290266298718681990629287025193807090855270922941016369397705979841003229496151404881535205516509184
  {
    hide Pow;
    DownFrom10();
    StepPowers(268, 954, 10000000000000000000000000000000000000000000000000000000000000000000000000000000000000000000000000000000000000000000000000000000000000000000000000000000000000000000000000000000000000000000000000000000000000000000000000000000000000000000000000000000000000000000000000000, 152270531428124985630521599810549817357441044649921992607311038393952323293225407851025235404406410300395389316115760440366549529143798344477781051504885209680176214061819891091731088367032088255512493648112787169901337467584294921027286931491702587700433418798504336673153571718623657984);
  }

  lemma DownChecked4()
    ensures CheckDown(4, 3, 10000000000000000000000000000000000000000000000000000000000000000000000000000000000000000000000000000000000000000000000000000000000000000000000000000000000000000000000000000000000000000000000000000000000000000000000000000000000000000000000000000000000000000000000000000000000000000000000000000000000000000000000000000, 111271815499725688772800629011191134503198215940648513515398731344102448558427492247186571945636336372109953130117917765427517239650180546323706252024222750489688174587137149597965223068997064546441930019030820261992844785845288604085086503175807634479315023727167070085897289761334199280305339395581408530165474500188492208080202760192)
  {
  }

  lemma DownFrom4()
    ensures Pow(10, 316) == 10000000000000000000000000000000000000000000000000000000000000000000000000000000000000000000000000000000000000000000000000000000000000000000000000000000000000000000000000000000000000000000000000000000000000000000000000000000000000000000000000000000000000000000000000000000000000000000000000000000000000000000000000000
    ensures Pow(2, 1113) == 111271815499725688772800629011191134503198215940648513515398731344102448558427492247186571945636336372109953130117917765427517239650180546323706252024222750489688174587137149597965223068997064546441930019030820261992844785845288604085086503175807634479315023727167070085897289761334199280305339395581408530165474500188492208080202760192
  {
    hide Pow;
    DownFrom7();
    StepPowers(292, 1034, 10000000000000000000000000000000000000000000000000000000000000000000000000000000000000000000000000000000000000000000000000000000000000000000000000000000000000000000000000000000000000000000000000000000000000000000000000000000000000000000000000000000000000000000000000000000000000000000000000000, 184083777009901148951480851536796132722480842643692193047992403105518260024832986247893480778145316885626996612988306798242600723265962621432675768974821503362834322867062256922933472871676000378319956942935045907290266298718681990629287025193807090855270922941016369397705979841003229496151404881535205516509184);
  }

  lemma DownChecked1()
    ensures CheckDown(1, 2, 10000000000000000000000000000000000000000000000000000000000000000000000000000000000000000000000000000000000000000000000000000000000000000000000000000000000000000000000000000000000000000000000000000000000000000000000000000000000000000000000000000000000000000000000000000000000000000000000000000000000000000000000000000000000000000000000000000, 134519370753013676703651388250411214715468162073817890013540912628130786650326137651542847947156610728799772804937199904598319744459505164257746952208818104255152370872312428756911561691562930655519273940773879111182388166158129446952285732547171613943243623247964327958707645217052354537478443534981624019968646193330245022595527470354054019030574305789345792)
  {
  }

  lemma DownFrom1()
    ensures Pow(10, 340) == 10000000000000000000000000000000000000000000000000000000000000000000000000000000000000000000000000000000000000000000000000000000000000000000000000000000000000000000000000000000000000000000000000000000000000000000000000000000000000000000000000000000000000000000000000000000000000000000000000000000000000000000000000000000000000000000000000000
    ensures Pow(2, 1193) == 134519370753013676703651388250411214715468162073817890013540912628130786650326137651542847947156610728799772804937199904598319744459505164257746952208818104255152370872312428756911561691562930655519273940773879111182388166158129446952285732547171613943243623247964327958707645217052354537478443534981624019968646193330245022595527470354054019030574305789345792
  {
    hide Pow;
    DownFrom4();
    StepPowers(316, 1113, 10000000000000000000000000000000000000000000000000000000000000000000000000000000000000000000000000000000000000000000000000000000000000000000000000000000000000000000000000000000000000000000000000000000000000000000000000000000000000000000000000000000000000000000000000000000000000000000000000000000000000000000000000000, 111271815499725688772800629011191134503198215940648513515398731344102448558427492247186571945636336372109953130117917765427517239650180546323706252024222750489688174587137149597965223068997064546441930019030820261992844785845288604085086503175807634479315023727167070085897289761334199280305339395581408530165474500188492208080202760192);
  }

  /** From one group to the next: 24 decimal and 79 or 80 binary places. */
  lemma StepPowers(k: nat, e: nat, ten: nat, two: nat)
    requires Pow(10, k) == ten && Pow(2, e) == two
    ensures Pow(10, k + 24) == ten * 1000000000000000000000000
    ensures Pow(2, e + 79) == two * 604462909807314587353088 && Pow(2, e + 80) == two * 1208925819614629174706176
  {
    hide Pow;
    FirstPowers();
    PowAdd(10, 20, 4);
    PowAdd(2, 77, 3);
    PowAdd(2, 77, 2);
    PowAdd(10, k, 24);
    PowAdd(2, e, 79);
    PowAdd(2, e, 80);
  }

  lemma SmallPowers()
    ensures Pow(10, 8) == 1_0000_0000 && Pow(10, 4) == 1_0000
    ensures Pow(2, 11) == 2048 && Pow(2, 1) == 2 && Pow(2, 3) == 8
  {
  }

  lemma FirstPowers()
    ensures Pow(10, 8) == 1_0000_0000 && Pow(10, 4) == 1_0000 && Pow(10, 12) == 1_0000_0000_0000
    ensures Pow(10, 20) == 1_0000_0000_0000_0000_0000
    ensures Pow(2, 2) == 4 && Pow(2, 3) == 8 && Pow(2, 22) == 4194304 && Pow(2, 24) == 16777216
    ensures Pow(2, 44) == 17592186044416 && Pow(2, 66) == 73786976294838206464 && Pow(2, 67) == 147573952589676412928
    ensures Pow(2, 77) == 151115727451828646838272 && Pow(2, 50) == 1125899906842624
    ensures Pow(2, 26) == 0x400_0000 && Pow(2, 27) == 0x800_0000
  {
    hide Pow;
    SmallPowers();
    PowAdd(10, 4, 8);
    PowAdd(10, 12, 8);
    PowAdd(2, 11, 11);
    PowAdd(2, 1, 1);
    PowAdd(2, 22, 2);
    PowAdd(2, 24, 2);
    PowAdd(2, 1, 26);
    PowAdd(2, 22, 22);
    PowAdd(2, 44, 22);
    PowAdd(2, 1, 66);
    PowAdd(2, 66, 11);
    PowAdd(2, 24, 26);
  }

  lemma UpperTable(j: nat)
    requires 46 <= j < NPOWERS
    ensures Accurate(CachedPower(j), TenExp(j))
  {
    hide Pow, CheckUp, Accurate, CachedPower;
    EntryExponents();
    if 46 <= j < 49 {
      UpFrom46();
      UpChecked46();
      UpMeans(46, 3, j);
    } else if 49 <= j < 52 {
      UpFrom49();
      UpChecked49();
      UpMeans(49, 3, j);
    } else if 52 <= j < 55 {
      UpFrom52();
      UpChecked52();
      UpMeans(52, 3, j);
    } else if 55 <= j < 58 {
      UpFrom55();
      UpChecked55();
      UpMeans(55, 3, j);
    } else if 58 <= j < 61 {
      UpFrom58();
      UpChecked58();
      UpMeans(58, 3, j);
    } else if 61 <= j < 64 {
      UpFrom61();
      UpChecked61();
      UpMeans(61, 3, j);
    } else if 64 <= j < 67 {
      UpFrom64();
      UpChecked64();
      UpMeans(64, 3, j);
    } else if 67 <= j < 70 {
      UpFrom67();
      UpChecked67();
      UpMeans(67, 3, j);
    } else if 70 <= j < 73 {
      UpFrom70();
      UpChecked70();
      UpMeans(70, 3, j);
    } else if 73 <= j < 76 {
      UpFrom73();
      UpChecked73();
      UpMeans(73, 3, j);
    } else if 76 <= j < 79 {
      UpFrom76();
      UpChecked76();
      UpMeans(76, 3, j);
    } else if 79 <= j < 82 {
      UpFrom79();
      UpChecked79();
      UpMeans(79, 3, j);
    } else if 82 <= j < 85 {
      UpFrom82();
      UpChecked82();
      UpMeans(82, 3, j);
    } else if 85 <= j < 87 {
      UpFrom85();
      UpChecked85();
      UpMeans(85, 2, j);
    }
  }

  lemma LowerTable(j: nat)
    requires j <= 43
    ensures Accurate(CachedPower(j), TenExp(j))
  {
    hide Pow, CheckDown, Accurate, CachedPower;
    EntryExponents();
    if 40 < j <= 43 {
      DownFrom43();
      DownChecked43();
      DownMeans(43, 3, j);
    } else if 37 < j <= 40 {
      DownFrom40();
      DownChecked40();
      DownMeans(40, 3, j);
    } else if 34 < j <= 37 {
      DownFrom37();
      DownChecked37();
      DownMeans(37, 3, j);
    } else if 31 < j <= 34 {
      DownFrom34();
      DownChecked34();
      DownMeans(34, 3, j);
    } else if 28 < j <= 31 {
      DownFrom31();
      DownChecked31();
      DownMeans(31, 3, j);
    } else if 25 < j <= 28 {
      DownFrom28();
      DownChecked28();
      DownMeans(28, 3, j);
    } else if 22 < j <= 25 {
      DownFrom25();
      DownChecked25();
      DownMeans(25, 3, j);
    } else if 19 < j <= 22 {
      DownFrom22();
      DownChecked22();
      DownMeans(22, 3, j);
    } else if 16 < j <= 19 {
      DownFrom19();
      DownChecked19();
      DownMeans(19, 3, j);
    } else if 13 < j <= 16 {
      DownFrom16();
      DownChecked16();
      DownMeans(16, 3, j);
    } else if 10 < j <= 13 {
      DownFrom13();
      DownChecked13();
      DownMeans(13, 3, j);
    } else if 7 < j <= 10 {
      DownFrom10();
      DownChecked10();
      DownMeans(10, 3, j);
    } else if 4 < j <= 7 {
      DownFrom7();
      DownChecked7();
      DownMeans(7, 3, j);
    } else if 1 < j <= 4 {
      DownFrom4();
      DownChecked4();
      DownMeans(4, 3, j);
    } else if -1 < j <= 1 {
      DownFrom1();
      DownChecked1();
      DownMeans(1, 2, j);
    }
  }

  /** The binary exponents of the entries that the groups start from. */
  lemma EntryExponents()
    ensures CachedPower(46).exp == 3
    ensures CachedPower(49).exp == 83
    ensures CachedPower(52).exp == 162
    ensures CachedPower(55).exp == 242
    ensures CachedPower(58).exp == 322
    ensures CachedPower(61).exp == 402
    ensures CachedPower(64).exp == 481
    ensures CachedPower(67).exp == 561
    ensures CachedPower(70).exp == 641
    ensures CachedPower(73).exp == 720
    ensures CachedPower(76).exp == 800
    ensures CachedPower(79).exp == 880
    ensures CachedPower(82).exp == 960
    ensures CachedPower(85).exp == 1039
    ensures CachedPower(43).exp == -77
    ensures CachedPower(40).exp == -157
    ensures CachedPower(37).exp == -236
    ensures CachedPower(34).exp == -316
    ensures CachedPower(31).exp == -396
    ensures CachedPower(28).exp == -475
    ensures CachedPower(25).exp == -555
    ensures CachedPower(22).exp == -635
    ensures CachedPower(19).exp == -715
    ensures CachedPower(16).exp == -794
    ensures CachedPower(13).exp == -874
    ensures CachedPower(10).exp == -954
    ensures CachedPower(7).exp == -1034
    ensures CachedPower(4).exp == -1113
    ensures CachedPower(1).exp == -1193
  {
  }

  /** Every entry of the table is within half a unit of its power of ten. */
  lemma TableIsAccurate(j: nat)
    requires j < NPOWERS
    ensures Accurate(CachedPower(j), TenExp(j))
  {
    hide CachedPower, Accurate;
    if j == 44 || j == 45 {
      ExactEntries(j);
    } else if j <= 43 {
      LowerTable(j);
    } else {
      UpperTable(j);
    }
  }

  /** 10^4 and 10^12 are stored exactly. */
  lemma ExactEntries(j: nat)
    requires j == 44 || j == 45
    ensures Accurate(CachedPower(j), TenExp(j))
  {
    hide RPow, Pow;
    var c, k := CachedPower(j), TenExp(j);
    FirstPowers();
    assert c.frac == Pow(10, k) * Pow(2, -c.exp);
    CastMul(Pow(10, k), Pow(2, -c.exp));
    RPowNat(10, k);
    RPowNat(2, -c.exp);
    RPowInverse(2.0, c.exp);
    var a, w := RPow(2.0, c.exp), RPow(2.0, -c.exp);
    assert c.frac as real * a == RPow(10.0, k) * (w * a) by { RAssoc(RPow(10.0, k), w, a); }
  }
}
