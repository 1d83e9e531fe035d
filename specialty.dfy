/** The specialty normalisers: an ordered table of prefix rules applied to the upper-cased,
    trimmed specialty name, the first matching rule giving the canonical label. Two tables
    exist: the one of the upload module (`uploads.py`, and unchanged in `uploads-old.py`) and
    the smaller local one of the general-data page of `app.py`. */
module Specialty {
  import opened Seqs
  import opened Strings

  /** One `elif nome.startswith(...)` branch: any of `prefixes` selects `canonical`. */
  datatype Rule = Rule(prefixes: seq<string>, canonical: string)

  /** `nome.upper().strip()`: the form every rule is tested against. */
  function Key(name: string): (k: string)
    ensures |k| <= |name|
    ensures k == [] || (!IsSpace(k[0]) && !IsSpace(k[|k| - 1]))
    ensures forall i :: 0 <= i < |k| ==> !IsLowerLetter(k[i])
  {
    var u := Upper(name);
    StripChars(u);
    Strip(u)
  }

  /** A key is its own key: upper-casing and trimming a second time changes nothing. */
  lemma KeyOfKey(name: string)
    ensures Key(Key(name)) == Key(name)
  {
    var k := Key(name);
    UpperOfUpper(k);
    StripTrimmed(k);
  }

  /** Some prefix in `prefixes` starts `key` (the `or` of one branch's `startswith` tests). */
  predicate AnyPrefix(prefixes: seq<string>, key: string) {
    prefixes != [] && (StartsWith(key, prefixes[0]) || AnyPrefix(prefixes[1..], key))
  }

  /** Letter case and blank padding do not change the key. */
  lemma KeyInsensitive(pre: string, name: string, post: string)
    requires AllSpaces(pre) && AllSpaces(post)
    ensures Key(pre + Lower(name) + post) == Key(name)
  {
    UpperAppend(pre + Lower(name), post);
    UpperAppend(pre, Lower(name));
    UpperLower(name);
    assert AllSpaces(Upper(pre)) && AllSpaces(Upper(post));
    StripPadded(Upper(pre), Upper(name), Upper(post));
  }

  predicate Matches(r: Rule, key: string) {
    AnyPrefix(r.prefixes, key)
  }

  /** Rule `i` matches `key` and no rule before it does. */
  predicate FirstAt(rules: seq<Rule>, key: string, i: nat)
    requires i < |rules|
  {
    Matches(rules[i], key) && forall j :: 0 <= j < i ==> !Matches(rules[j], key)
  }

  /** The position of the first rule, in written order, that matches `key`. */
  function FirstMatch(rules: seq<Rule>, key: string): (r: Option<nat>)
    ensures r.Some? ==> r.value < |rules| && Matches(rules[r.value], key)
    ensures r.Some? ==> forall j :: 0 <= j < r.value ==> !Matches(rules[j], key)
    ensures r.None? ==> forall j :: 0 <= j < |rules| ==> !Matches(rules[j], key)
  {
    if rules == [] then None
    else if Matches(rules[0], key) then Some(0)
    else match FirstMatch(rules[1..], key)
      case None => None
      case Some(i) => Some(i + 1)
  }

  /** The normaliser over a rule table: the label of the first matching rule, or, when no
      rule matches, the key itself (upper-cased and trimmed, not the original name). */
  function NormalizeWith(rules: seq<Rule>, name: string): string {
    var k := Key(name);
    match FirstMatch(rules, k)
    case Some(v) => rules[v].canonical
    case None => k
  }

  /** The first matching rule, in written order, gives the result. */
  lemma NormalizeWithFirstAt(rules: seq<Rule>, name: string, i: nat)
    requires i < |rules| && FirstAt(rules, Key(name), i)
    ensures NormalizeWith(rules, name) == rules[i].canonical
  {
    var k := Key(name);
    match FirstMatch(rules, k)
    case Some(v) =>
      assert Matches(rules[v], k) && Matches(rules[i], k);
    case None =>
  }

  /** With no matching rule the result is the key: upper-cased and trimmed. */
  lemma NormalizeWithNone(rules: seq<Rule>, name: string)
    requires forall i :: 0 <= i < |rules| ==> !Matches(rules[i], Key(name))
    ensures NormalizeWith(rules, name) == Key(name)
  {
    var m := FirstMatch(rules, Key(name));
    assert m.None?;
  }

  /** The normaliser sees its input only through the key, so letter case and blank padding
      never change the result. */
  lemma NormalizeWithInsensitive(rules: seq<Rule>, pre: string, name: string, post: string)
    requires AllSpaces(pre) && AllSpaces(post)
    ensures NormalizeWith(rules, pre + Lower(name) + post) == NormalizeWith(rules, name)
  {
    KeyInsensitive(pre, name, post);
  }

  /** Every result is a label of the table or the key of the input. */
  lemma NormalizeWithRange(rules: seq<Rule>, name: string)
    ensures NormalizeWith(rules, name) == Key(name)
      || exists i :: 0 <= i < |rules| && NormalizeWith(rules, name) == rules[i].canonical
  {
    match FirstMatch(rules, Key(name))
    case Some(i) =>
    case None =>
  }

  /** Every label of the table normalises to itself. */
  predicate LabelsFixed(rules: seq<Rule>) {
    forall i :: 0 <= i < |rules| ==> NormalizeWith(rules, rules[i].canonical) == rules[i].canonical
  }

  /** A table whose labels are fixed points gives an idempotent normaliser. */
  lemma NormalizeWithIdempotent(rules: seq<Rule>, name: string)
    requires LabelsFixed(rules)
    ensures NormalizeWith(rules, NormalizeWith(rules, name)) == NormalizeWith(rules, name)
  {
    var k := Key(name);
    match FirstMatch(rules, k)
    case Some(i) =>
      assert NormalizeWith(rules, rules[i].canonical) == rules[i].canonical;
    case None =>
      KeyOfKey(name);
  }

  // ---- Proof device for the concrete tables -------------------------------------------------

  predicate DiffersAt(key: string, p: string, k: nat) {
    k < |key| && k < |p| && key[k] != p[k]
  }

  /** `p` is visibly not a prefix of `key`: it is longer, or differs at one of the positions
      where the prefixes of both tables first diverge from each other. */
  predicate Apart(key: string, p: string) {
    |p| > |key| || DiffersAt(key, p, 0) || DiffersAt(key, p, 1) || DiffersAt(key, p, 2)
    || DiffersAt(key, p, 9) || DiffersAt(key, p, 10)
  }

  /** No prefix of the rules before position `i` can start `key`. */
  predicate ApartBefore(rules: seq<Rule>, i: nat, key: string)
    requires i <= |rules|
  {
    forall j, p :: 0 <= j < i && p in rules[j].prefixes ==> Apart(key, p)
  }

  lemma {:induction false} NoPrefixNoMatch(prefixes: seq<string>, key: string)
    requires forall p :: p in prefixes ==> Apart(key, p)
    ensures !AnyPrefix(prefixes, key)
  {
    if prefixes != [] {
      assert Apart(key, prefixes[0]);
      NoPrefixNoMatch(prefixes[1..], key);
    }
  }

  lemma {:induction false} AnyPrefixAt(prefixes: seq<string>, w: nat, key: string)
    requires w < |prefixes| && StartsWith(key, prefixes[w])
    ensures AnyPrefix(prefixes, key)
  {
    if w > 0 {
      AnyPrefixAt(prefixes[1..], w - 1, key);
    }
  }

  lemma SinglePrefix(p: string, key: string)
    ensures AnyPrefix([p], key) <==> StartsWith(key, p)
  {
    assert [p][1..] == [];
  }

  /** No prefix of the rules before position `i` starts with the character `c`. */
  predicate InitialAbsent(rules: seq<Rule>, i: nat, c: char)
    requires i <= |rules|
  {
    forall j, p :: 0 <= j < i && p in rules[j].prefixes ==> p != [] && p[0] != c
  }

  lemma InitialApart(rules: seq<Rule>, i: nat, key: string)
    requires i <= |rules| && key != [] && InitialAbsent(rules, i, key[0])
    ensures ApartBefore(rules, i, key)
  {
  }

  lemma ApartBeforeNoMatch(rules: seq<Rule>, i: nat, key: string)
    requires i <= |rules| && ApartBefore(rules, i, key)
    ensures forall j :: 0 <= j < i ==> !Matches(rules[j], key)
  {
    forall j | 0 <= j < i ensures !Matches(rules[j], key) {
      NoPrefixNoMatch(rules[j].prefixes, key);
    }
  }

  /** A label whose key is matched by its own rule, and by none before it, is a fixed point. */
  lemma FixedByOwnRule(rules: seq<Rule>, i: nat, w: nat)
    requires i < |rules| && w < |rules[i].prefixes|
    requires StartsWith(Key(rules[i].canonical), rules[i].prefixes[w])
    requires ApartBefore(rules, i, Key(rules[i].canonical))
    ensures NormalizeWith(rules, rules[i].canonical) == rules[i].canonical
  {
    var k := Key(rules[i].canonical);
    ApartBeforeNoMatch(rules, i, k);
    AnyPrefixAt(rules[i].prefixes, w, k);
    NormalizeWithFirstAt(rules, rules[i].canonical, i);
  }

  /** A label that is its own key and that no rule matches is a fixed point. */
  lemma FixedByNoRule(rules: seq<Rule>, i: nat)
    requires i < |rules|
    requires Key(rules[i].canonical) == rules[i].canonical
    requires ApartBefore(rules, |rules|, rules[i].canonical)
    ensures NormalizeWith(rules, rules[i].canonical) == rules[i].canonical
  {
    ApartBeforeNoMatch(rules, |rules|, rules[i].canonical);
    NormalizeWithNone(rules, rules[i].canonical);
  }

  // ---- The upload module's table ------------------------------------------------------------

  /** The branches of the upload module's normaliser, in written order. */
  const UploadRules: seq<Rule> := [
    Rule(["CIRURGIA PLÁSTICA"], "Cirurgia Plástica"),
    Rule(["CIRURGIA GERAL"], "Cirurgia Geral"),
    Rule(["CIRURGIA VASCULAR"], "Cirurgia Vascular"),
    Rule(["CIRURGIA PEDIÁTRICA"], "Cirurgia Pediátrica"),
    Rule(["OFTALMOLOGIA"], "Oftalmologia"),
    Rule(["DERMATOLOGIA"], "Dermatologia"),
    Rule(["ANESTESIOLOGIA"], "Anestesiologia"),
    Rule(["CARDIOLOGIA"], "Cardiologia"),
    Rule(["COLOPROCTOLOGIA"], "Coloproctologia"),
    Rule(["GASTROCLÍNICA", "GASTROENTEROLOGIA"], "Gastroenterologia"),
    Rule(["MASTOLOGIA"], "Mastologia"),
    Rule(["ORTOPEDIA"], "Ortopedia"),
    Rule(["OTORRINOLARINGOLOGIA"], "Otorrinolaringologia"),
    Rule(["UROLOGIA"], "Urologia"),
    Rule(["ENDOCRINOLOGIA"], "Endocrinologia"),
    Rule(["NEUROLOGIA PEDIÁTRICA"], "Neurologia Pediátrica"),
    Rule(["NEUROLOGIA"], "Neurologia Adulto"),
    Rule(["PNEUMOLOGIA PEDIÁTRICA"], "Pneumologia Pediátrica"),
    Rule(["PNEUMOLOGIA"], "Pneumologia"),
    Rule(["NEFROLOGIA"], "Nefrologia")
  ]

  /** `normalizar_especialidade(nome)` of the upload module, on `str(nome)`. */
  function Normalize(name: string): string {
    NormalizeWith(UploadRules, name)
  }

  /** The prefix of its own rule that each upload label starts with. */
  function OwnPrefix(i: nat): nat {
    if i == 9 then 1 else 0
  }

  /** Label `i` upper-cased is `key`, which has no blank at either end, no prefix of an
      earlier rule can start it, and a prefix of its own rule does: the label is a fixed point. */
  lemma OwnKey(i: nat, key: string)
    requires i < |UploadRules| && Upper(UploadRules[i].canonical) == key && Trimmed(key)
    requires ApartBefore(UploadRules, i, key)
    requires OwnPrefix(i) < |UploadRules[i].prefixes| && StartsWith(key, UploadRules[i].prefixes[OwnPrefix(i)])
    ensures NormalizeWith(UploadRules, UploadRules[i].canonical) == UploadRules[i].canonical
  {
    StripTrimmed(key);
    FixedByOwnRule(UploadRules, i, OwnPrefix(i));
  }

  // The facts about each row of the upload table, one row and one fact per lemma so that each
  // proof expands as little of the table as possible.
  lemma UploadUpper0() ensures Upper(UploadRules[0].canonical) == "CIRURGIA PLÁSTICA" { }
  lemma UploadApart0() ensures ApartBefore(UploadRules, 0, "CIRURGIA PLÁSTICA") { }
  lemma UploadUpper1() ensures Upper(UploadRules[1].canonical) == "CIRURGIA GERAL" { }
  lemma UploadApart1() ensures ApartBefore(UploadRules, 1, "CIRURGIA GERAL") { }
  lemma UploadUpper2() ensures Upper(UploadRules[2].canonical) == "CIRURGIA VASCULAR" { }
  lemma UploadApart2() ensures ApartBefore(UploadRules, 2, "CIRURGIA VASCULAR") { }
  lemma UploadUpper3() ensures Upper(UploadRules[3].canonical) == "CIRURGIA PEDIÁTRICA" { }
  lemma UploadApart3() ensures ApartBefore(UploadRules, 3, "CIRURGIA PEDIÁTRICA") { }
  lemma UploadUpper4() ensures Upper(UploadRules[4].canonical) == "OFTALMOLOGIA" { }
  lemma UploadApart4() ensures ApartBefore(UploadRules, 4, "OFTALMOLOGIA") { }
  lemma UploadUpper5() ensures Upper(UploadRules[5].canonical) == "DERMATOLOGIA" { }
  lemma UploadApart5() ensures ApartBefore(UploadRules, 5, "DERMATOLOGIA") { }
  lemma UploadUpper6() ensures Upper(UploadRules[6].canonical) == "ANESTESIOLOGIA" { }
  lemma UploadApart6() ensures ApartBefore(UploadRules, 6, "ANESTESIOLOGIA") { }
  lemma UploadUpper7() ensures Upper(UploadRules[7].canonical) == "CARDIOLOGIA" { }
  lemma UploadApart7() ensures ApartBefore(UploadRules, 7, "CARDIOLOGIA") { }
  lemma UploadUpper8() ensures Upper(UploadRules[8].canonical) == "COLOPROCTOLOGIA" { }
  lemma UploadApart8() ensures ApartBefore(UploadRules, 8, "COLOPROCTOLOGIA") { }
  lemma UploadUpper9() ensures Upper(UploadRules[9].canonical) == "GASTROENTEROLOGIA" { }
  lemma UploadApart9() ensures ApartBefore(UploadRules, 9, "GASTROENTEROLOGIA") { }
  lemma UploadUpper10() ensures Upper(UploadRules[10].canonical) == "MASTOLOGIA" { }
  lemma UploadApart10() ensures ApartBefore(UploadRules, 10, "MASTOLOGIA") { }
  lemma UploadUpper11() ensures Upper(UploadRules[11].canonical) == "ORTOPEDIA" { }
  lemma UploadApart11() ensures ApartBefore(UploadRules, 11, "ORTOPEDIA") { }
  lemma UploadUpper12() ensures Upper(UploadRules[12].canonical) == "OTORRINOLARINGOLOGIA" { }
  lemma UploadApart12() ensures ApartBefore(UploadRules, 12, "OTORRINOLARINGOLOGIA") { }
  lemma UploadUpper13() ensures Upper(UploadRules[13].canonical) == "UROLOGIA" { }
  lemma UploadApart13() ensures ApartBefore(UploadRules, 13, "UROLOGIA") { }
  lemma UploadUpper14() ensures Upper(UploadRules[14].canonical) == "ENDOCRINOLOGIA" { }
  lemma UploadApart14() ensures ApartBefore(UploadRules, 14, "ENDOCRINOLOGIA") { }
  lemma UploadUpper15() ensures Upper(UploadRules[15].canonical) == "NEUROLOGIA PEDIÁTRICA" { }
  lemma UploadApart15() ensures ApartBefore(UploadRules, 15, "NEUROLOGIA PEDIÁTRICA") { }
  lemma UploadUpper16() ensures Upper(UploadRules[16].canonical) == "NEUROLOGIA ADULTO" { }
  lemma UploadApart16() ensures ApartBefore(UploadRules, 16, "NEUROLOGIA ADULTO") { }
  lemma UploadUpper17() ensures Upper(UploadRules[17].canonical) == "PNEUMOLOGIA PEDIÁTRICA" { }
  lemma UploadApart17() ensures ApartBefore(UploadRules, 17, "PNEUMOLOGIA PEDIÁTRICA") { }
  lemma UploadUpper18() ensures Upper(UploadRules[18].canonical) == "PNEUMOLOGIA" { }
  lemma UploadApart18() ensures ApartBefore(UploadRules, 18, "PNEUMOLOGIA") { }
  lemma UploadUpper19() ensures Upper(UploadRules[19].canonical) == "NEFROLOGIA" { }
  lemma UploadApart19() ensures ApartBefore(UploadRules, 19, "NEFROLOGIA") { }

  lemma UploadFixed0()
    ensures NormalizeWith(UploadRules, UploadRules[0].canonical) == UploadRules[0].canonical
  {
    UploadUpper0(); UploadApart0(); OwnKey(0, "CIRURGIA PLÁSTICA");
  }

  lemma UploadFixed1()
    ensures NormalizeWith(UploadRules, UploadRules[1].canonical) == UploadRules[1].canonical
  {
    UploadUpper1(); UploadApart1(); OwnKey(1, "CIRURGIA GERAL");
  }

  lemma UploadFixed2()
    ensures NormalizeWith(UploadRules, UploadRules[2].canonical) == UploadRules[2].canonical
  {
    UploadUpper2(); UploadApart2(); OwnKey(2, "CIRURGIA VASCULAR");
  }

  lemma UploadFixed3()
    ensures NormalizeWith(UploadRules, UploadRules[3].canonical) == UploadRules[3].canonical
  {
    UploadUpper3(); UploadApart3(); OwnKey(3, "CIRURGIA PEDIÁTRICA");
  }

  lemma UploadFixed4()
    ensures NormalizeWith(UploadRules, UploadRules[4].canonical) == UploadRules[4].canonical
  {
    UploadUpper4(); UploadApart4(); OwnKey(4, "OFTALMOLOGIA");
  }

  lemma UploadFixed5()
    ensures NormalizeWith(UploadRules, UploadRules[5].canonical) == UploadRules[5].canonical
  {
    UploadUpper5(); UploadApart5(); OwnKey(5, "DERMATOLOGIA");
  }

  lemma UploadFixed6()
    ensures NormalizeWith(UploadRules, UploadRules[6].canonical) == UploadRules[6].canonical
  {
    UploadUpper6(); UploadApart6(); OwnKey(6, "ANESTESIOLOGIA");
  }

  lemma UploadFixed7()
    ensures NormalizeWith(UploadRules, UploadRules[7].canonical) == UploadRules[7].canonical
  {
    UploadUpper7(); UploadApart7(); OwnKey(7, "CARDIOLOGIA");
  }

  lemma UploadFixed8()
    ensures NormalizeWith(UploadRules, UploadRules[8].canonical) == UploadRules[8].canonical
  {
    UploadUpper8(); UploadApart8(); OwnKey(8, "COLOPROCTOLOGIA");
  }

  lemma UploadFixed9()
    ensures NormalizeWith(UploadRules, UploadRules[9].canonical) == UploadRules[9].canonical
  {
    UploadUpper9(); UploadApart9(); OwnKey(9, "GASTROENTEROLOGIA");
  }

  lemma UploadFixed10()
    ensures NormalizeWith(UploadRules, UploadRules[10].canonical) == UploadRules[10].canonical
  {
    UploadUpper10(); UploadApart10(); OwnKey(10, "MASTOLOGIA");
  }

  lemma UploadFixed11()
    ensures NormalizeWith(UploadRules, UploadRules[11].canonical) == UploadRules[11].canonical
  {
    UploadUpper11(); UploadApart11(); OwnKey(11, "ORTOPEDIA");
  }

  lemma UploadFixed12()
    ensures NormalizeWith(UploadRules, UploadRules[12].canonical) == UploadRules[12].canonical
  {
    UploadUpper12(); UploadApart12(); OwnKey(12, "OTORRINOLARINGOLOGIA");
  }

  lemma UploadFixed13()
    ensures NormalizeWith(UploadRules, UploadRules[13].canonical) == UploadRules[13].canonical
  {
    UploadUpper13(); UploadApart13(); OwnKey(13, "UROLOGIA");
  }

  lemma UploadFixed14()
    ensures NormalizeWith(UploadRules, UploadRules[14].canonical) == UploadRules[14].canonical
  {
    UploadUpper14(); UploadApart14(); OwnKey(14, "ENDOCRINOLOGIA");
  }

  lemma UploadFixed15()
    ensures NormalizeWith(UploadRules, UploadRules[15].canonical) == UploadRules[15].canonical
  {
    UploadUpper15(); UploadApart15(); OwnKey(15, "NEUROLOGIA PEDIÁTRICA");
  }

  lemma UploadFixed16()
    ensures NormalizeWith(UploadRules, UploadRules[16].canonical) == UploadRules[16].canonical
  {
    UploadUpper16(); UploadApart16(); OwnKey(16, "NEUROLOGIA ADULTO");
  }

  lemma UploadFixed17()
    ensures NormalizeWith(UploadRules, UploadRules[17].canonical) == UploadRules[17].canonical
  {
    UploadUpper17(); UploadApart17(); OwnKey(17, "PNEUMOLOGIA PEDIÁTRICA");
  }

  lemma UploadFixed18()
    ensures NormalizeWith(UploadRules, UploadRules[18].canonical) == UploadRules[18].canonical
  {
    UploadUpper18(); UploadApart18(); OwnKey(18, "PNEUMOLOGIA");
  }

  lemma UploadFixed19()
    ensures NormalizeWith(UploadRules, UploadRules[19].canonical) == UploadRules[19].canonical
  {
    UploadUpper19(); UploadApart19(); OwnKey(19, "NEFROLOGIA");
  }

  lemma UploadLabelFixed(i: nat)
    requires i < |UploadRules|
    ensures NormalizeWith(UploadRules, UploadRules[i].canonical) == UploadRules[i].canonical
  {
    if i == 0 { UploadFixed0(); }
    else if i == 1 { UploadFixed1(); }
    else if i == 2 { UploadFixed2(); }
    else if i == 3 { UploadFixed3(); }
    else if i == 4 { UploadFixed4(); }
    else if i == 5 { UploadFixed5(); }
    else if i == 6 { UploadFixed6(); }
    else if i == 7 { UploadFixed7(); }
    else if i == 8 { UploadFixed8(); }
    else if i == 9 { UploadFixed9(); }
    else if i == 10 { UploadFixed10(); }
    else if i == 11 { UploadFixed11(); }
    else if i == 12 { UploadFixed12(); }
    else if i == 13 { UploadFixed13(); }
    else if i == 14 { UploadFixed14(); }
    else if i == 15 { UploadFixed15(); }
    else if i == 16 { UploadFixed16(); }
    else if i == 17 { UploadFixed17(); }
    else if i == 18 { UploadFixed18(); }
    else { UploadFixed19(); }
  }

  /** Each canonical label of the upload table, upper-cased, is caught by its own rule before
      any other one. */
  lemma UploadLabelsFixed()
    ensures LabelsFixed(UploadRules)
  {
    forall i | 0 <= i < |UploadRules|
      ensures NormalizeWith(UploadRules, UploadRules[i].canonical) == UploadRules[i].canonical
    {
      UploadLabelFixed(i);
    }
  }

  /** Normalising twice is normalising once. */
  lemma NormalizeIdempotent(name: string)
    ensures Normalize(Normalize(name)) == Normalize(name)
  {
    UploadLabelsFixed();
    NormalizeWithIdempotent(UploadRules, name);
  }

  /** A name that no rule catches comes back upper-cased and trimmed. */
  lemma NormalizeUnmatched(name: string)
    requires forall i :: 0 <= i < |UploadRules| ==> !Matches(UploadRules[i], Key(name))
    ensures Normalize(name) == Strip(Upper(name))
  {
    NormalizeWithNone(UploadRules, name);
  }

  /** A key starting with `p` starts with `p[0]`. */
  lemma StartsWithInitial(key: string, p: string)
    requires p != [] && StartsWith(key, p)
    ensures key != [] && key[0] == p[0]
  {
    assert key[..|p|][0] == key[0];
  }

  /** No upload rule before position `i` has a prefix starting with the initial of `p`, so a
      key starting with `p` matches none of them. */
  lemma NoMatchBefore(k: string, i: nat, c: char, p: string)
    requires i <= |UploadRules| && p != [] && p[0] == c && StartsWith(k, p)
    requires InitialAbsent(UploadRules, i, c)
    ensures forall j :: 0 <= j < i ==> !Matches(UploadRules[j], k)
  {
    StartsWithInitial(k, p);
    InitialApart(UploadRules, i, k);
    ApartBeforeNoMatch(UploadRules, i, k);
  }

  /** The paediatric neurology branch is tried before the generic one: a key starting with
      "NEUROLOGIA PEDIÁTRICA" gives that label, any other key starting with "NEUROLOGIA" gives
      "Neurologia Adulto". */
  lemma NeurologySpecificity(name: string)
    requires StartsWith(Key(name), "NEUROLOGIA")
    ensures StartsWith(Key(name), "NEUROLOGIA PEDIÁTRICA") ==> Normalize(name) == "Neurologia Pediátrica"
    ensures !StartsWith(Key(name), "NEUROLOGIA PEDIÁTRICA") ==> Normalize(name) == "Neurologia Adulto"
  {
    var k := Key(name);
    NeurologyKey(k);
    if StartsWith(k, "NEUROLOGIA PEDIÁTRICA") {
      NormalizeWithFirstAt(UploadRules, name, 15);
      assert Normalize(name) == UploadRules[15].canonical;
    } else {
      NormalizeWithFirstAt(UploadRules, name, 16);
      assert Normalize(name) == UploadRules[16].canonical;
    }
  }

  lemma NeurologyKey(k: string)
    requires StartsWith(k, "NEUROLOGIA")
    ensures StartsWith(k, "NEUROLOGIA PEDIÁTRICA") ==> FirstAt(UploadRules, k, 15)
    ensures !StartsWith(k, "NEUROLOGIA PEDIÁTRICA") ==> FirstAt(UploadRules, k, 16)
  {
    UploadInitialN();
    NoMatchBefore(k, 15, 'N', "NEUROLOGIA");
    UploadNeurologyRules();
    if StartsWith(k, "NEUROLOGIA PEDIÁTRICA") {
      AnyPrefixAt(UploadRules[15].prefixes, 0, k);
    } else {
      SinglePrefix("NEUROLOGIA PEDIÁTRICA", k);
      AnyPrefixAt(UploadRules[16].prefixes, 0, k);
    }
  }

  lemma UploadInitialN()
    ensures InitialAbsent(UploadRules, 15, 'N')
  {
  }

  lemma UploadNeurologyRules()
    ensures UploadRules[15].prefixes == ["NEUROLOGIA PEDIÁTRICA"]
    ensures UploadRules[16].prefixes == ["NEUROLOGIA"]
  {
  }

  /** The same ordering for pneumology. */
  lemma PneumologySpecificity(name: string)
    requires StartsWith(Key(name), "PNEUMOLOGIA")
    ensures StartsWith(Key(name), "PNEUMOLOGIA PEDIÁTRICA") ==> Normalize(name) == "Pneumologia Pediátrica"
    ensures !StartsWith(Key(name), "PNEUMOLOGIA PEDIÁTRICA") ==> Normalize(name) == "Pneumologia"
  {
    var k := Key(name);
    PneumologyKey(k);
    if StartsWith(k, "PNEUMOLOGIA PEDIÁTRICA") {
      NormalizeWithFirstAt(UploadRules, name, 17);
      assert Normalize(name) == UploadRules[17].canonical;
    } else {
      NormalizeWithFirstAt(UploadRules, name, 18);
      assert Normalize(name) == UploadRules[18].canonical;
    }
  }

  lemma PneumologyKey(k: string)
    requires StartsWith(k, "PNEUMOLOGIA")
    ensures StartsWith(k, "PNEUMOLOGIA PEDIÁTRICA") ==> FirstAt(UploadRules, k, 17)
    ensures !StartsWith(k, "PNEUMOLOGIA PEDIÁTRICA") ==> FirstAt(UploadRules, k, 18)
  {
    UploadInitialP();
    NoMatchBefore(k, 17, 'P', "PNEUMOLOGIA");
    UploadPneumologyRules();
    if StartsWith(k, "PNEUMOLOGIA PEDIÁTRICA") {
      AnyPrefixAt(UploadRules[17].prefixes, 0, k);
    } else {
      SinglePrefix("PNEUMOLOGIA PEDIÁTRICA", k);
      AnyPrefixAt(UploadRules[18].prefixes, 0, k);
    }
  }

  lemma UploadInitialP()
    ensures InitialAbsent(UploadRules, 17, 'P')
  {
  }

  lemma UploadPneumologyRules()
    ensures UploadRules[17].prefixes == ["PNEUMOLOGIA PEDIÁTRICA"]
    ensures UploadRules[18].prefixes == ["PNEUMOLOGIA"]
  {
  }

  /** Both gastroenterology spellings fall into one group. */
  lemma GastroenterologyGroup(name: string)
    requires StartsWith(Key(name), "GASTROCLÍNICA") || StartsWith(Key(name), "GASTROENTEROLOGIA")
    ensures Normalize(name) == "Gastroenterologia"
  {
    var k := Key(name);
    GastroenterologyKey(k);
    assert FirstAt(UploadRules, k, 9);
    NormalizeWithFirstAt(UploadRules, name, 9);
    assert Normalize(name) == UploadRules[9].canonical;
  }

  lemma GastroenterologyKey(k: string)
    requires StartsWith(k, "GASTROCLÍNICA") || StartsWith(k, "GASTROENTEROLOGIA")
    ensures FirstAt(UploadRules, k, 9)
  {
    if StartsWith(k, "GASTROCLÍNICA") {
      StartsWithInitial(k, "GASTROCLÍNICA");
      AnyPrefixAt(UploadRules[9].prefixes, 0, k);
    } else {
      StartsWithInitial(k, "GASTROENTEROLOGIA");
      AnyPrefixAt(UploadRules[9].prefixes, 1, k);
    }
    UploadInitialG();
    InitialApart(UploadRules, 9, k);
    ApartBeforeNoMatch(UploadRules, 9, k);
  }

  lemma UploadInitialG()
    ensures InitialAbsent(UploadRules, 9, 'G')
  {
  }

  /** Anything after the plastic-surgery prefix is ignored. */
  lemma PlasticSurgery(name: string)
    requires StartsWith(Key(name), "CIRURGIA PLÁSTICA")
    ensures Normalize(name) == "Cirurgia Plástica"
  {
    var k := Key(name);
    AnyPrefixAt(UploadRules[0].prefixes, 0, k);
    assert FirstAt(UploadRules, k, 0);
    NormalizeWithFirstAt(UploadRules, name, 0);
    assert Normalize(name) == UploadRules[0].canonical;
  }

  // ---- The general-data page's local table --------------------------------------------------

  /** The branches of the local normaliser of the general-data page of `app.py`: upper-case
      labels, only the "GASTROCLÍNICA" spelling of gastroenterology, and no neurology,
      pneumology, general or paediatric surgery, endocrinology or nephrology rules. */
  const PageRules: seq<Rule> := [
    Rule(["CIRURGIA PLÁSTICA"], "CIRURGIA PLÁSTICA"),
    Rule(["OFTALMOLOGIA"], "OFTALMOLOGIA"),
    Rule(["CARDIOLOGIA"], "CARDIOLOGIA"),
    Rule(["DERMATOLOGIA"], "DERMATOLOGIA"),
    Rule(["ANESTESIOLOGIA"], "ANESTESIOLOGIA"),
    Rule(["CIRURGIA VASCULAR"], "CIRURGIA VASCULAR"),
    Rule(["COLOPROCTOLOGIA"], "COLOPROCTOLOGIA"),
    Rule(["GASTROCLÍNICA"], "GASTROENTEROLOGIA"),
    Rule(["MASTOLOGIA"], "MASTOLOGIA"),
    Rule(["ORTOPEDIA"], "ORTOPEDIA"),
    Rule(["OTORRINOLARINGOLOGIA"], "OTORRINOLARINGOLOGIA"),
    Rule(["UROLOGIA"], "UROLOGIA")
  ]

  /** The page's local `normalizar_especialidade`. */
  function NormalizePage(name: string): string {
    NormalizeWith(PageRules, name)
  }

  /** Page label `i` is `key`, its own upper-case form with no blank at either end, the one
      prefix of its rule, and no earlier rule's prefix can start it: the label is a fixed point. */
  lemma PageOwnKey(i: nat, key: string)
    requires i < |PageRules| && PageRules[i].canonical == key && PageRules[i].prefixes == [key]
    requires Upper(key) == key && Trimmed(key) && ApartBefore(PageRules, i, key)
    ensures NormalizeWith(PageRules, key) == key
  {
    StripTrimmed(key);
    StartsWithSelf(key);
    FixedByOwnRule(PageRules, i, 0);
  }

  // The facts about each row of the page table, one row and one fact per lemma.
  lemma PageUpper0() ensures Upper(PageRules[0].canonical) == PageRules[0].canonical == "CIRURGIA PLÁSTICA" { }
  lemma PageApart0() ensures ApartBefore(PageRules, 0, "CIRURGIA PLÁSTICA") { }
  lemma PageUpper1() ensures Upper(PageRules[1].canonical) == PageRules[1].canonical == "OFTALMOLOGIA" { }
  lemma PageApart1() ensures ApartBefore(PageRules, 1, "OFTALMOLOGIA") { }
  lemma PageUpper2() ensures Upper(PageRules[2].canonical) == PageRules[2].canonical == "CARDIOLOGIA" { }
  lemma PageApart2() ensures ApartBefore(PageRules, 2, "CARDIOLOGIA") { }
  lemma PageUpper3() ensures Upper(PageRules[3].canonical) == PageRules[3].canonical == "DERMATOLOGIA" { }
  lemma PageApart3() ensures ApartBefore(PageRules, 3, "DERMATOLOGIA") { }
  lemma PageUpper4() ensures Upper(PageRules[4].canonical) == PageRules[4].canonical == "ANESTESIOLOGIA" { }
  lemma PageApart4() ensures ApartBefore(PageRules, 4, "ANESTESIOLOGIA") { }
  lemma PageUpper5() ensures Upper(PageRules[5].canonical) == PageRules[5].canonical == "CIRURGIA VASCULAR" { }
  lemma PageApart5() ensures ApartBefore(PageRules, 5, "CIRURGIA VASCULAR") { }
  lemma PageUpper6() ensures Upper(PageRules[6].canonical) == PageRules[6].canonical == "COLOPROCTOLOGIA" { }
  lemma PageApart6() ensures ApartBefore(PageRules, 6, "COLOPROCTOLOGIA") { }
  lemma PageUpper7() ensures Upper(PageRules[7].canonical) == PageRules[7].canonical == "GASTROENTEROLOGIA" { }
  lemma PageUpper8() ensures Upper(PageRules[8].canonical) == PageRules[8].canonical == "MASTOLOGIA" { }
  lemma PageApart8() ensures ApartBefore(PageRules, 8, "MASTOLOGIA") { }
  lemma PageUpper9() ensures Upper(PageRules[9].canonical) == PageRules[9].canonical == "ORTOPEDIA" { }
  lemma PageApart9() ensures ApartBefore(PageRules, 9, "ORTOPEDIA") { }
  lemma PageUpper10() ensures Upper(PageRules[10].canonical) == PageRules[10].canonical == "OTORRINOLARINGOLOGIA" { }
  lemma PageApart10() ensures ApartBefore(PageRules, 10, "OTORRINOLARINGOLOGIA") { }
  lemma PageUpper11() ensures Upper(PageRules[11].canonical) == PageRules[11].canonical == "UROLOGIA" { }
  lemma PageApart11() ensures ApartBefore(PageRules, 11, "UROLOGIA") { }
  lemma PageGastroenterologyApart() ensures ApartBefore(PageRules, |PageRules|, "GASTROENTEROLOGIA") { }

  lemma PageFixed0()
    ensures NormalizeWith(PageRules, PageRules[0].canonical) == PageRules[0].canonical
  {
    PageUpper0(); PageApart0(); PageOwnKey(0, "CIRURGIA PLÁSTICA");
  }

  lemma PageFixed1()
    ensures NormalizeWith(PageRules, PageRules[1].canonical) == PageRules[1].canonical
  {
    PageUpper1(); PageApart1(); PageOwnKey(1, "OFTALMOLOGIA");
  }

  lemma PageFixed2()
    ensures NormalizeWith(PageRules, PageRules[2].canonical) == PageRules[2].canonical
  {
    PageUpper2(); PageApart2(); PageOwnKey(2, "CARDIOLOGIA");
  }

  lemma PageFixed3()
    ensures NormalizeWith(PageRules, PageRules[3].canonical) == PageRules[3].canonical
  {
    PageUpper3(); PageApart3(); PageOwnKey(3, "DERMATOLOGIA");
  }

  lemma PageFixed4()
    ensures NormalizeWith(PageRules, PageRules[4].canonical) == PageRules[4].canonical
  {
    PageUpper4(); PageApart4(); PageOwnKey(4, "ANESTESIOLOGIA");
  }

  lemma PageFixed5()
    ensures NormalizeWith(PageRules, PageRules[5].canonical) == PageRules[5].canonical
  {
    PageUpper5(); PageApart5(); PageOwnKey(5, "CIRURGIA VASCULAR");
  }

  lemma PageFixed6()
    ensures NormalizeWith(PageRules, PageRules[6].canonical) == PageRules[6].canonical
  {
    PageUpper6(); PageApart6(); PageOwnKey(6, "COLOPROCTOLOGIA");
  }

  lemma PageFixed8()
    ensures NormalizeWith(PageRules, PageRules[8].canonical) == PageRules[8].canonical
  {
    PageUpper8(); PageApart8(); PageOwnKey(8, "MASTOLOGIA");
  }

  lemma PageFixed9()
    ensures NormalizeWith(PageRules, PageRules[9].canonical) == PageRules[9].canonical
  {
    PageUpper9(); PageApart9(); PageOwnKey(9, "ORTOPEDIA");
  }

  lemma PageFixed10()
    ensures NormalizeWith(PageRules, PageRules[10].canonical) == PageRules[10].canonical
  {
    PageUpper10(); PageApart10(); PageOwnKey(10, "OTORRINOLARINGOLOGIA");
  }

  lemma PageFixed11()
    ensures NormalizeWith(PageRules, PageRules[11].canonical) == PageRules[11].canonical
  {
    PageUpper11(); PageApart11(); PageOwnKey(11, "UROLOGIA");
  }

  /** "GASTROENTEROLOGIA" is caught by no rule of the page table, so it is left as its key. */
  lemma PageGastroenterologyFixed()
    ensures NormalizeWith(PageRules, PageRules[7].canonical) == PageRules[7].canonical
  {
    var key := "GASTROENTEROLOGIA";
    PageUpper7();
    PageGastroenterologyApart();
    assert Trimmed(key);
    StripTrimmed(key);
    FixedByNoRule(PageRules, 7);
  }

  lemma PageLabelFixed(i: nat)
    requires i < |PageRules|
    ensures NormalizeWith(PageRules, PageRules[i].canonical) == PageRules[i].canonical
  {
    if i == 0 { PageFixed0(); }
    else if i == 1 { PageFixed1(); }
    else if i == 2 { PageFixed2(); }
    else if i == 3 { PageFixed3(); }
    else if i == 4 { PageFixed4(); }
    else if i == 5 { PageFixed5(); }
    else if i == 6 { PageFixed6(); }
    else if i == 7 { PageGastroenterologyFixed(); }
    else if i == 8 { PageFixed8(); }
    else if i == 9 { PageFixed9(); }
    else if i == 10 { PageFixed10(); }
    else { PageFixed11(); }
  }

  lemma PageLabelsFixed()
    ensures LabelsFixed(PageRules)
  {
    forall i | 0 <= i < |PageRules|
      ensures NormalizeWith(PageRules, PageRules[i].canonical) == PageRules[i].canonical
    {
      PageLabelFixed(i);
    }
  }

  /** Every output of the page's normaliser is a fixed point: either it equals the prefix of
      the rule that produced it, or, for "GASTROENTEROLOGIA", no rule matches it. */
  lemma NormalizePageIdempotent(name: string)
    ensures NormalizePage(NormalizePage(name)) == NormalizePage(name)
  {
    PageLabelsFixed();
    NormalizeWithIdempotent(PageRules, name);
  }

  /** On the page the clinical spelling becomes "GASTROENTEROLOGIA". */
  lemma PageGastroclinica(name: string)
    requires StartsWith(Key(name), "GASTROCLÍNICA")
    ensures NormalizePage(name) == "GASTROENTEROLOGIA"
  {
    PageGastroclinicaKey(Key(name));
    NormalizeWithFirstAt(PageRules, name, 7);
    assert NormalizePage(name) == PageRules[7].canonical;
  }

  lemma PageGastroclinicaKey(k: string)
    requires StartsWith(k, "GASTROCLÍNICA")
    ensures FirstAt(PageRules, k, 7)
  {
    StartsWithInitial(k, "GASTROCLÍNICA");
    AnyPrefixAt(PageRules[7].prefixes, 0, k);
    assert InitialAbsent(PageRules, 7, 'G');
    InitialApart(PageRules, 7, k);
    ApartBeforeNoMatch(PageRules, 7, k);
  }

  /** On the page only the clinical spelling is regrouped; "GASTROENTEROLOGIA ..." passes
      through as its own key. */
  lemma PageGastroenterology(name: string)
    requires StartsWith(Key(name), "GASTROENTEROLOGIA")
    ensures NormalizePage(name) == Key(name)
  {
    PageGastroenterologyKey(Key(name));
    NormalizeWithNone(PageRules, name);
  }

  lemma PageGastroenterologyKey(k: string)
    requires StartsWith(k, "GASTROENTEROLOGIA")
    ensures forall j :: 0 <= j < |PageRules| ==> !Matches(PageRules[j], k)
  {
    StartsWithInitial(k, "GASTROENTEROLOGIA");
    assert k[9] == 'E' by {
      assert k[..17][9] == k[9];
    }
    assert InitialAbsent(PageRules, 7, 'G');
    forall j, p | 0 <= j < |PageRules| && p in PageRules[j].prefixes ensures Apart(k, p) {
      if j == 7 {
        assert DiffersAt(k, p, 9);
      } else if j > 7 {
        assert DiffersAt(k, p, 0);
      }
    }
    ApartBeforeNoMatch(PageRules, |PageRules|, k);
  }
}
