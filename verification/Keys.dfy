/** The keys of the persistent store: a stem and the message id in decimal. */
module Keys {

  function Digit(d: int): char
    requires 0 <= d < 10
  {
    ['0', '1', '2', '3', '4', '5', '6', '7', '8', '9'][d]
  }

  /** `%d` of a non-negative number. */
  function Decimal(n: nat): (s: string)
    ensures |s| >= 1
  {
    if n < 10 then [Digit(n)] else Decimal(n / 10) + [Digit(n % 10)]
  }

  lemma DigitInjective(a: int, b: int)
    requires 0 <= a < 10 && 0 <= b < 10 && Digit(a) == Digit(b)
    ensures a == b
  {
  }

  lemma {:induction false} DecimalInjective(m: nat, n: nat)
    requires Decimal(m) == Decimal(n)
    ensures m == n
  {
    var s := Decimal(m);
    assert s[|s| - 1] == Digit(m % 10) && s[|s| - 1] == Digit(n % 10) by {
      assert m < 10 ==> m % 10 == m;
      assert n < 10 ==> n % 10 == n;
    }
    DigitInjective(m % 10, n % 10);
    assert m >= 10 <==> |Decimal(m)| >= 2;
    assert n >= 10 <==> |Decimal(n)| >= 2;
    if m >= 10 && n >= 10 {
      assert s[..|s| - 1] == Decimal(m / 10) && s[..|s| - 1] == Decimal(n / 10);
      DecimalInjective(m / 10, n / 10);
    }
  }

  const SENT := "s-"
  const PUBREL := "sc-"
  const RECEIVED := "r-"
  const SENT5 := "s5-"
  const PUBREL5 := "sc5-"
  const RECEIVED5 := "r5-"
  const COMMAND := "c-"
  const QUEUE := "q-"

  function KeyOf(stem: string, id: nat): string { stem + Decimal(id) }

  function SentKey(id: nat): string { KeyOf(SENT, id) }
  function PubrelKey(id: nat): string { KeyOf(PUBREL, id) }
  function ReceivedKey(id: nat): string { KeyOf(RECEIVED, id) }

  lemma KeyInjective(stem: string, a: nat, b: nat)
    requires KeyOf(stem, a) == KeyOf(stem, b)
    ensures a == b
  {
    assert KeyOf(stem, a)[|stem|..] == Decimal(a);
    assert KeyOf(stem, b)[|stem|..] == Decimal(b);
    DecimalInjective(a, b);
  }

  const STEMS: set<string> := {SENT, PUBREL, RECEIVED, SENT5, PUBREL5, RECEIVED5}

  /** Keys of different kinds, or of different ids, differ. */
  lemma KeysDiffer(stem: string, other: string, a: nat, b: nat)
    requires stem in STEMS && other in STEMS && KeyOf(stem, a) == KeyOf(other, b)
    ensures stem == other && a == b
  {
    var k, h := KeyOf(stem, a), KeyOf(other, b);
    StemRead(stem, a);
    StemRead(other, b);
    KeyInjective(stem, a, b);
  }

  /** The stem ends at the first hyphen. */
  lemma StemRead(stem: string, a: nat)
    requires stem in STEMS
    ensures var k := KeyOf(stem, a);
            && |k| >= 3
            && (k[1] == '-' ==> stem == k[..2]) && (k[1] != '-' && k[2] == '-' ==> stem == k[..3])
            && (k[1] != '-' && k[2] != '-' ==> |k| >= 4 && stem == k[..4])
  {
    assert stem == SENT || stem == PUBREL || stem == RECEIVED || stem == SENT5 || stem == PUBREL5 || stem == RECEIVED5;
    var k := KeyOf(stem, a);
    assert k[..|stem|] == stem;
    assert forall i :: 0 <= i < |stem| ==> k[i] == stem[i];
  }

  /** Which branch of the restore loop a key takes: `strncmp` with each stem in turn. */
  datatype Branch = Skipped | Version5 | ForReceived | ForSent | ForPubrel | Unknown

  function BranchOf(key: string): Branch {
    if COMMAND <= key || QUEUE <= key then Skipped
    else if RECEIVED5 <= key || SENT5 <= key || PUBREL5 <= key then Version5
    else if RECEIVED <= key then ForReceived
    else if SENT <= key then ForSent
    else if PUBREL <= key then ForPubrel
    else Unknown
  }

  lemma BranchOfKeys(id: nat)
    ensures BranchOf(SentKey(id)) == ForSent
    ensures BranchOf(PubrelKey(id)) == ForPubrel
    ensures BranchOf(ReceivedKey(id)) == ForReceived
  {
    var d := Decimal(id);
    DecimalStart(id);
    assert SentKey(id)[0] == 's' && SentKey(id)[1] == '-' && SENT <= SentKey(id);
    assert PubrelKey(id)[0] == 's' && PubrelKey(id)[1] == 'c' && PubrelKey(id)[2] == '-' && PUBREL <= PubrelKey(id);
    assert ReceivedKey(id)[0] == 'r' && ReceivedKey(id)[1] == '-' && RECEIVED <= ReceivedKey(id);
  }

  lemma DecimalStart(n: nat)
    ensures Decimal(n)[0] != '-'
  {
  }
}
