/** The coefficient tables of the Runge-Kutta stepper, filled entry by entry. */
module SspTables {
  import opened SspRk

  /** A table of zeros: row i has i + 1 entries. */
  function Zeros(n: nat): (t: seq<seq<real>>)
    ensures |t| == n && forall i | 0 <= i < n :: |t[i]| == i + 1
  {
    seq(n, i requires 0 <= i < n => seq(i + 1, _ => 0.0))
  }

  function Set(t: seq<seq<real>>, i: nat, j: nat, x: real): (t': seq<seq<real>>)
    requires i < |t| && j < |t[i]|
    ensures |t'| == |t| && forall k | 0 <= k < |t| :: |t'[k]| == |t[k]|
  {
    t[i := t[i][j := x]]
  }

  const EULER: Scheme := Scheme(1,
    [[1.0]],
    [[1.0]])
  const SSP22: Scheme := Scheme(2,
    [[1.0], [0.5, 0.5]],
    [[1.0], [0.0, 0.5]])
  const SSP33: Scheme := Scheme(3,
    [[1.0], [3.0 / 4.0, 1.0 / 4.0], [1.0 / 3.0, 0.0, 2.0 / 3.0]],
    [[1.0], [0.0, 1.0 / 4.0], [0.0, 0.0, 2.0 / 3.0]])
  const SSP43: Scheme := Scheme(4,
    [[1.0], [0.0, 1.0], [2.0 / 3.0, 0.0, 1.0 / 3.0], [0.0, 0.0, 0.0, 1.0]],
    [[1.0 / 2.0], [0.0, 1.0 / 2.0], [0.0, 0.0, 1.0 / 6.0], [0.0, 0.0, 0.0, 1.0 / 2.0]])
  const SSP53: Scheme := Scheme(5,
    [[1.0], [0.0, 1.0], [0.355909775063327, 0.0, 0.644090224936674], [0.367933791638137, 0.0, 0.0, 0.632066208361863],
     [0.0, 0.0, 0.237593836598569, 0.0, 0.762406163401431]],
    [[0.377268915331368], [0.0, 0.377268915331368], [0.0, 0.0, 0.242995220537396], [0.0, 0.0, 0.0, 0.23845893284629],
     [0.0, 0.0, 0.0, 0.0, 0.287632146308408]])
  const SSP63: Scheme := Scheme(6,
    [[1.0], [0.0, 1.0], [0.0, 0.0, 1.0], [0.476769811285196, 0.098511733286064, 0.0, 0.42471845542874],
     [0.0, 0.0, 0.0, 0.0, 1.0], [0.0, 0.0, 0.155221702560091, 0.0, 0.0, 0.844778297439909]],
    [[0.284220721334261], [0.0, 0.284220721334261], [0.0, 0.0, 0.284220721334261], [0.0, 0.0, 0.0, 0.12071378576593],
     [0.0, 0.0, 0.0, 0.0, 0.284220721334261], [0.0, 0.0, 0.0, 0.0, 0.0, 0.2401034970659]])
  const SSP73: Scheme := Scheme(7,
    [[1.0], [0.0, 1.0], [0.0, 0.0, 1.0], [0.184962588071072, 0.0, 0.0, 0.815037411928928],
     [0.18071865657038, 0.314831034403793, 0.0, 0.0, 0.504450309025826], [0.0, 0.0, 0.0, 0.0, 0.0, 1.0],
     [0.0, 0.0, 0.0, 0.120199, 0.0, 0.0, 0.879801]],
    [[0.233213863663009], [0.0, 0.233213863663009], [0.0, 0.0, 0.233213863663009], [0.0, 0.0, 0.0, 0.190078023865845],
     [0.0, 0.0, 0.0, 0.0, 0.117644805593912], [0.0, 0.0, 0.0, 0.0, 0.0, 0.233213863663009],
     [0.0, 0.0, 0.0, 0.0, 0.0, 0.0, 0.205181790464579]])
  const SSP83: Scheme := Scheme(8,
    [[1.0], [0.0, 1.0], [0.0, 0.0, 1.0], [0.0, 0.0, 0.0, 1.0],
     [0.421366967085359, 0.005949401107575, 0.0, 0.0, 0.572683631807067],
     [0.0, 0.004254010666365, 0.0, 0.0, 0.0, 0.995745989333635],
     [0.0, 0.0, 0.104380143093325, 0.243265240906726, 0.0, 0.0, 0.65235461599995],
     [0.0, 0.0, 0.0, 0.0, 0.0, 0.0, 0.0, 1.0]],
    [[0.195804015330143], [0.0, 0.195804015330143], [0.0, 0.0, 0.195804015330143], [0.0, 0.0, 0.0, 0.195804015330143],
     [0.0, 0.0, 0.0, 0.0, 0.112133754621673], [0.0, 0.0, 0.0, 0.0, 0.0, 0.194971062960412],
     [0.0, 0.0, 0.0, 0.0, 0.0, 0.0, 0.127733653231944], [0.0, 0.0, 0.0, 0.0, 0.0, 0.0, 0.0, 0.195804015330143]])
  const SSP54: Scheme := Scheme(5,
    [[1.0], [0.44437049406734, 0.55562950593266], [0.6201018513854, 0.0, 0.3798981486146],
     [0.17807995410773, 0.0, 0.0, 0.82192004589227],
     [0.00683325884039, 0.0, 0.51723167208978, 0.12759831133288, 0.34833675773694]],
    [[0.39175222700392], [0.0, 0.36841059262959], [0.0, 0.0, 0.25189177424738], [0.0, 0.0, 0.0, 0.54497475021237],
     [0.0, 0.0, 0.0, 0.08460416338212, 0.22600748319395]])
  const SSP64: Scheme := Scheme(6,
    [[1.0], [0.30948026455053, 0.69051973544947], [0.54205244285557, 0.0, 0.45794755714443],
     [0.35984960863377, 0.0, 0.0, 0.64015039136623], [0.0, 0.0, 0.0, 0.0, 1.0],
     [0.05776282890116, 0.0, 0.44216432622405, 0.0, 0.10115567086469, 0.39891717401009]],
    [[0.39270746575722], [0.0, 0.30154043149172], [0.0, 0.0, 0.19997937335132], [0.0, 0.0, 0.0, 0.27954483459696],
     [0.0, 0.0, 0.0, 0.0, 0.43668618869443], [0.0, 0.0, 0.0915093153168, 0.0, 0.04417328437472, 0.14911300530736]])
  const SSP74: Scheme := Scheme(7,
    [[1.0], [0.20161507213829, 0.79838492786171], [0.19469598207921, 0.0, 0.80530401792079],
     [0.58143386885601, 0.0, 0.0, 0.41856613114399], [0.01934367892154, 0.0, 0.0, 0.0, 0.98065632107846],
     [0.0, 0.0, 0.0, 0.0, 0.0, 1.0],
     [0.06006304558847, 0.0, 0.30152730794242, 0.10518998496676, 0.01483791154585, 0.0, 0.5183817499565]],
    [[0.30111872706068], [0.0, 0.24040865318216], [0.0, 0.0, 0.24249212077315], [0.0, 0.0, 0.0, 0.1260381006008],
     [0.0, 0.0, 0.0, 0.0, 0.29529398308716], [0.0, 0.0, 0.0, 0.0, 0.0, 0.30111872706068],
     [0.0, 0.0, 0.09079551914158, 0.0288835935488, 0.0, 0.0, 0.15609445267839]])
  const SSP84: Scheme := Scheme(8,
    [[1.0], [0.10645325745007, 0.89354674254993], [0.0, 0.0, 1.0], [0.57175518477257, 0.0, 0.0, 0.42824481522743],
     [0.19161667219044, 0.0, 0.0, 0.0, 0.80838332780956], [0.0, 0.0, 0.0, 0.0, 0.0, 1.0],
     [0.0, 0.0, 0.0, 0.0, 0.0, 0.0, 1.0],
     [0.02580435327923, 0.0, 0.03629901341774, 0.31859181340256, 0.05186768980103, 0.0394407621732, 0.00511633747411,
      0.52288003045213]],
    [[0.24120020561311], [0.0, 0.21552365802797], [0.0, 0.0, 0.24120020561311], [0.0, 0.0, 0.0, 0.1032927374856],
     [0.0, 0.0, 0.0, 0.0, 0.19498222488188], [0.0, 0.0, 0.0, 0.0, 0.0, 0.24120020561311],
     [0.0, 0.0, 0.0, 0.0, 0.0, 0.0, 0.24120020561311],
     [0.0, 0.0, 0.00875532949991, 0.06195575835101, 0.0, 0.00951311994571, 0.0, 0.12611877085604]])

  method AllocateTable(n: nat) returns (t: seq<seq<real>>)
    ensures t == Zeros(n)
  {
    t := [];
    for step := 1 to n + 1
      invariant t == Zeros(step - 1)
    {
      t := t + [seq(step, _ => 0.0)];
    }
  }

  /** A table of which only the first k rows are filled. */
  function FirstRows(t: seq<seq<real>>, k: nat): (r: seq<seq<real>>)
    requires k <= |t|
    ensures |r| == |t|
  {
    t[..k] + Zeros(|t|)[k..]
  }

  lemma TablesEqual(a: seq<seq<real>>, b: seq<seq<real>>)
    requires |a| == |b| && forall i | 0 <= i < |a| :: |a[i]| == |b[i]| && forall j | 0 <= j < |a[i]| ::
               a[i][j] == b[i][j]
    ensures a == b
  {
    assert forall i | 0 <= i < |a| :: a[i] == b[i];
  }

  method ArkEuler() returns (ark: seq<seq<real>>)
    ensures ark == EULER.ark
  {
    ark := AllocateTable(1);
    ark := Set(ark, 0, 0, 1.0);
    TablesEqual(ark, EULER.ark);
  }

  method BrkEuler() returns (brk: seq<seq<real>>)
    ensures brk == EULER.brk
  {
    brk := AllocateTable(1);
    brk := Set(brk, 0, 0, 1.0);
    TablesEqual(brk, EULER.brk);
  }

  method Ark22() returns (ark: seq<seq<real>>)
    ensures ark == SSP22.ark
  {
    ark := AllocateTable(2);
    ark := Set(ark, 0, 0, 1.0);
    ark := Set(ark, 1, 0, 0.5);
    ark := Set(ark, 1, 1, 0.5);
    TablesEqual(ark, SSP22.ark);
  }

  method Brk22() returns (brk: seq<seq<real>>)
    ensures brk == SSP22.brk
  {
    brk := AllocateTable(2);
    brk := Set(brk, 0, 0, 1.0);
    brk := Set(brk, 1, 1, 0.5);
    TablesEqual(brk, SSP22.brk);
  }

  method Ark33() returns (ark: seq<seq<real>>)
    ensures ark == SSP33.ark
  {
    ark := AllocateTable(3);
    ark := Set(ark, 0, 0, 1.0);
    ark := Set(ark, 1, 0, 3.0 / 4.0);
    ark := Set(ark, 1, 1, 1.0 / 4.0);
    ark := Set(ark, 2, 0, 1.0 / 3.0);
    ark := Set(ark, 2, 2, 2.0 / 3.0);
    TablesEqual(ark, SSP33.ark);
  }

  method Brk33() returns (brk: seq<seq<real>>)
    ensures brk == SSP33.brk
  {
    brk := AllocateTable(3);
    brk := Set(brk, 0, 0, 1.0);
    brk := Set(brk, 1, 1, 1.0 / 4.0);
    brk := Set(brk, 2, 2, 2.0 / 3.0);
    TablesEqual(brk, SSP33.brk);
  }

  method Ark43() returns (ark: seq<seq<real>>)
    ensures ark == SSP43.ark
  {
    ark := AllocateTable(4);
    ark := Set(ark, 0, 0, 1.0);
    ark := Set(ark, 1, 1, 1.0);
    ark := Set(ark, 2, 0, 2.0 / 3.0);
    ark := Set(ark, 2, 2, 1.0 / 3.0);
    ark := Set(ark, 3, 3, 1.0);
    TablesEqual(ark, SSP43.ark);
  }

  method Brk43() returns (brk: seq<seq<real>>)
    ensures brk == SSP43.brk
  {
    brk := AllocateTable(4);
    brk := Set(brk, 0, 0, 1.0 / 2.0);
    brk := Set(brk, 1, 1, 1.0 / 2.0);
    brk := Set(brk, 2, 2, 1.0 / 6.0);
    brk := Set(brk, 3, 3, 1.0 / 2.0);
    TablesEqual(brk, SSP43.brk);
  }

  method Ark53() returns (ark: seq<seq<real>>)
    ensures ark == SSP53.ark
  {
    ark := AllocateTable(5);
    ark := Set(ark, 0, 0, 1.0);
    ark := Set(ark, 1, 1, 1.0);
    ark := Set(ark, 2, 0, 0.355909775063327);
    ark := Set(ark, 2, 2, 0.644090224936674);
    ark := Set(ark, 3, 0, 0.367933791638137);
    ark := Set(ark, 3, 3, 0.632066208361863);
    ark := Set(ark, 4, 2, 0.237593836598569);
    ark := Set(ark, 4, 4, 0.762406163401431);
    TablesEqual(ark, SSP53.ark);
  }

  method Brk53() returns (brk: seq<seq<real>>)
    ensures brk == SSP53.brk
  {
    brk := AllocateTable(5);
    brk := Set(brk, 0, 0, 0.377268915331368);
    brk := Set(brk, 1, 1, 0.377268915331368);
    brk := Set(brk, 2, 2, 0.242995220537396);
    brk := Set(brk, 3, 3, 0.23845893284629);
    brk := Set(brk, 4, 4, 0.287632146308408);
    TablesEqual(brk, SSP53.brk);
  }

  method Ark63() returns (ark: seq<seq<real>>)
    ensures ark == SSP63.ark
  {
    ark := AllocateTable(6);
    ark := Set(ark, 0, 0, 1.0);
    ark := Set(ark, 1, 1, 1.0);
    ark := Set(ark, 2, 2, 1.0);
    ark := Set(ark, 3, 0, 0.476769811285196);
    ark := Set(ark, 3, 1, 0.098511733286064);
    ark := Set(ark, 3, 3, 0.42471845542874);
    ark := Set(ark, 4, 4, 1.0);
    ark := Set(ark, 5, 2, 0.155221702560091);
    ark := Set(ark, 5, 5, 0.844778297439909);
    TablesEqual(ark, SSP63.ark);
  }

  method Brk63() returns (brk: seq<seq<real>>)
    ensures brk == SSP63.brk
  {
    brk := AllocateTable(6);
    brk := Set(brk, 0, 0, 0.284220721334261);
    brk := Set(brk, 1, 1, 0.284220721334261);
    brk := Set(brk, 2, 2, 0.284220721334261);
    brk := Set(brk, 3, 3, 0.12071378576593);
    brk := Set(brk, 4, 4, 0.284220721334261);
    brk := Set(brk, 5, 5, 0.2401034970659);
    TablesEqual(brk, SSP63.brk);
  }

  method Ark73() returns (ark: seq<seq<real>>)
    ensures ark == SSP73.ark
  {
    ark := AllocateTable(7);
    ark := Set(ark, 0, 0, 1.0);
    ark := Set(ark, 1, 1, 1.0);
    ark := Set(ark, 2, 2, 1.0);
    ark := Set(ark, 3, 0, 0.184962588071072);
    ark := Set(ark, 3, 3, 0.815037411928928);
    ark := Set(ark, 4, 0, 0.18071865657038);
    ark := Set(ark, 4, 1, 0.314831034403793);
    ark := Set(ark, 4, 4, 0.504450309025826);
    ark := Set(ark, 5, 5, 1.0);
    ark := Set(ark, 6, 3, 0.120199);
    ark := Set(ark, 6, 6, 0.879801);
    TablesEqual(ark, SSP73.ark);
  }

  method Brk73() returns (brk: seq<seq<real>>)
    ensures brk == SSP73.brk
  {
    brk := AllocateTable(7);
    brk := Set(brk, 0, 0, 0.233213863663009);
    brk := Set(brk, 1, 1, 0.233213863663009);
    brk := Set(brk, 2, 2, 0.233213863663009);
    brk := Set(brk, 3, 3, 0.190078023865845);
    brk := Set(brk, 4, 4, 0.117644805593912);
    brk := Set(brk, 5, 5, 0.233213863663009);
    brk := Set(brk, 6, 6, 0.205181790464579);
    TablesEqual(brk, SSP73.brk);
  }

  method FirstArk83() returns (ark: seq<seq<real>>)
    ensures ark == FirstRows(SSP83.ark, 5)
  {
    ark := AllocateTable(8);
    ark := Set(ark, 0, 0, 1.0);
    ark := Set(ark, 1, 1, 1.0);
    ark := Set(ark, 2, 2, 1.0);
    ark := Set(ark, 3, 3, 1.0);
    ark := Set(ark, 4, 0, 0.421366967085359);
    ark := Set(ark, 4, 1, 0.005949401107575);
    ark := Set(ark, 4, 4, 0.572683631807067);
    TablesEqual(ark, FirstRows(SSP83.ark, 5));
  }

  method Ark83() returns (ark: seq<seq<real>>)
    ensures ark == SSP83.ark
  {
    ark := FirstArk83();
    ark := Set(ark, 5, 1, 0.004254010666365);
    ark := Set(ark, 5, 5, 0.995745989333635);
    ark := Set(ark, 6, 2, 0.104380143093325);
    ark := Set(ark, 6, 3, 0.243265240906726);
    ark := Set(ark, 6, 6, 0.65235461599995);
    ark := Set(ark, 7, 7, 1.0);
    TablesEqual(ark, SSP83.ark);
  }

  method FirstBrk83() returns (brk: seq<seq<real>>)
    ensures brk == FirstRows(SSP83.brk, 5)
  {
    brk := AllocateTable(8);
    brk := Set(brk, 0, 0, 0.195804015330143);
    brk := Set(brk, 1, 1, 0.195804015330143);
    brk := Set(brk, 2, 2, 0.195804015330143);
    brk := Set(brk, 3, 3, 0.195804015330143);
    brk := Set(brk, 4, 4, 0.112133754621673);
    TablesEqual(brk, FirstRows(SSP83.brk, 5));
  }

  method Brk83() returns (brk: seq<seq<real>>)
    ensures brk == SSP83.brk
  {
    brk := FirstBrk83();
    brk := Set(brk, 5, 5, 0.194971062960412);
    brk := Set(brk, 6, 6, 0.127733653231944);
    brk := Set(brk, 7, 7, 0.195804015330143);
    TablesEqual(brk, SSP83.brk);
  }

  method Ark54() returns (ark: seq<seq<real>>)
    ensures ark == SSP54.ark
  {
    ark := AllocateTable(5);
    ark := Set(ark, 0, 0, 1.0);
    ark := Set(ark, 1, 0, 0.44437049406734);
    ark := Set(ark, 1, 1, 0.55562950593266);
    ark := Set(ark, 2, 0, 0.6201018513854);
    ark := Set(ark, 2, 2, 0.3798981486146);
    ark := Set(ark, 3, 0, 0.17807995410773);
    ark := Set(ark, 3, 3, 0.82192004589227);
    ark := Set(ark, 4, 0, 0.00683325884039);
    ark := Set(ark, 4, 2, 0.51723167208978);
    ark := Set(ark, 4, 3, 0.12759831133288);
    ark := Set(ark, 4, 4, 0.34833675773694);
    TablesEqual(ark, SSP54.ark);
  }

  method Brk54() returns (brk: seq<seq<real>>)
    ensures brk == SSP54.brk
  {
    brk := AllocateTable(5);
    brk := Set(brk, 0, 0, 0.39175222700392);
    brk := Set(brk, 1, 1, 0.36841059262959);
    brk := Set(brk, 2, 2, 0.25189177424738);
    brk := Set(brk, 3, 3, 0.54497475021237);
    brk := Set(brk, 4, 3, 0.08460416338212);
    brk := Set(brk, 4, 4, 0.22600748319395);
    TablesEqual(brk, SSP54.brk);
  }

  method Ark64() returns (ark: seq<seq<real>>)
    ensures ark == SSP64.ark
  {
    ark := AllocateTable(6);
    ark := Set(ark, 0, 0, 1.0);
    ark := Set(ark, 1, 0, 0.30948026455053);
    ark := Set(ark, 1, 1, 0.69051973544947);
    ark := Set(ark, 2, 0, 0.54205244285557);
    ark := Set(ark, 2, 2, 0.45794755714443);
    ark := Set(ark, 3, 0, 0.35984960863377);
    ark := Set(ark, 3, 3, 0.64015039136623);
    ark := Set(ark, 4, 4, 1.0);
    ark := Set(ark, 5, 0, 0.05776282890116);
    ark := Set(ark, 5, 2, 0.44216432622405);
    ark := Set(ark, 5, 4, 0.10115567086469);
    ark := Set(ark, 5, 5, 0.39891717401009);
    TablesEqual(ark, SSP64.ark);
  }

  method Brk64() returns (brk: seq<seq<real>>)
    ensures brk == SSP64.brk
  {
    brk := AllocateTable(6);
    brk := Set(brk, 0, 0, 0.39270746575722);
    brk := Set(brk, 1, 1, 0.30154043149172);
    brk := Set(brk, 2, 2, 0.19997937335132);
    brk := Set(brk, 3, 3, 0.27954483459696);
    brk := Set(brk, 4, 4, 0.43668618869443);
    brk := Set(brk, 5, 2, 0.0915093153168);
    brk := Set(brk, 5, 4, 0.04417328437472);
    brk := Set(brk, 5, 5, 0.14911300530736);
    TablesEqual(brk, SSP64.brk);
  }

  method FirstArk74() returns (ark: seq<seq<real>>)
    ensures ark == FirstRows(SSP74.ark, 5)
  {
    ark := AllocateTable(7);
    ark := Set(ark, 0, 0, 1.0);
    ark := Set(ark, 1, 0, 0.20161507213829);
    ark := Set(ark, 1, 1, 0.79838492786171);
    ark := Set(ark, 2, 0, 0.19469598207921);
    ark := Set(ark, 2, 2, 0.80530401792079);
    ark := Set(ark, 3, 0, 0.58143386885601);
    ark := Set(ark, 3, 3, 0.41856613114399);
    ark := Set(ark, 4, 0, 0.01934367892154);
    ark := Set(ark, 4, 4, 0.98065632107846);
    TablesEqual(ark, FirstRows(SSP74.ark, 5));
  }

  method Ark74() returns (ark: seq<seq<real>>)
    ensures ark == SSP74.ark
  {
    ark := FirstArk74();
    ark := Set(ark, 5, 5, 1.0);
    ark := Set(ark, 6, 0, 0.06006304558847);
    ark := Set(ark, 6, 2, 0.30152730794242);
    ark := Set(ark, 6, 3, 0.10518998496676);
    ark := Set(ark, 6, 4, 0.01483791154585);
    ark := Set(ark, 6, 6, 0.5183817499565);
    TablesEqual(ark, SSP74.ark);
  }

  method FirstBrk74() returns (brk: seq<seq<real>>)
    ensures brk == FirstRows(SSP74.brk, 5)
  {
    brk := AllocateTable(7);
    brk := Set(brk, 0, 0, 0.30111872706068);
    brk := Set(brk, 1, 1, 0.24040865318216);
    brk := Set(brk, 2, 2, 0.24249212077315);
    brk := Set(brk, 3, 3, 0.1260381006008);
    brk := Set(brk, 4, 4, 0.29529398308716);
    TablesEqual(brk, FirstRows(SSP74.brk, 5));
  }

  method Brk74() returns (brk: seq<seq<real>>)
    ensures brk == SSP74.brk
  {
    brk := FirstBrk74();
    brk := Set(brk, 5, 5, 0.30111872706068);
    brk := Set(brk, 6, 2, 0.09079551914158);
    brk := Set(brk, 6, 3, 0.0288835935488);
    brk := Set(brk, 6, 6, 0.15609445267839);
    TablesEqual(brk, SSP74.brk);
  }

  method FirstArk84() returns (ark: seq<seq<real>>)
    ensures ark == FirstRows(SSP84.ark, 5)
  {
    ark := AllocateTable(8);
    ark := Set(ark, 0, 0, 1.0);
    ark := Set(ark, 1, 0, 0.10645325745007);
    ark := Set(ark, 1, 1, 0.89354674254993);
    ark := Set(ark, 2, 2, 1.0);
    ark := Set(ark, 3, 0, 0.57175518477257);
    ark := Set(ark, 3, 3, 0.42824481522743);
    ark := Set(ark, 4, 0, 0.19161667219044);
    ark := Set(ark, 4, 4, 0.80838332780956);
    TablesEqual(ark, FirstRows(SSP84.ark, 5));
  }

  method Ark84() returns (ark: seq<seq<real>>)
    ensures ark == SSP84.ark
  {
    ark := FirstArk84();
    ark := Set(ark, 5, 5, 1.0);
    ark := Set(ark, 6, 6, 1.0);
    ark := Set(ark, 7, 0, 0.02580435327923);
    ark := Set(ark, 7, 2, 0.03629901341774);
    ark := Set(ark, 7, 3, 0.31859181340256);
    ark := Set(ark, 7, 4, 0.05186768980103);
    ark := Set(ark, 7, 5, 0.0394407621732);
    ark := Set(ark, 7, 6, 0.00511633747411);
    ark := Set(ark, 7, 7, 0.52288003045213);
    TablesEqual(ark, SSP84.ark);
  }

  method FirstBrk84() returns (brk: seq<seq<real>>)
    ensures brk == FirstRows(SSP84.brk, 5)
  {
    brk := AllocateTable(8);
    brk := Set(brk, 0, 0, 0.24120020561311);
    brk := Set(brk, 1, 1, 0.21552365802797);
    brk := Set(brk, 2, 2, 0.24120020561311);
    brk := Set(brk, 3, 3, 0.1032927374856);
    brk := Set(brk, 4, 4, 0.19498222488188);
    TablesEqual(brk, FirstRows(SSP84.brk, 5));
  }

  method Brk84() returns (brk: seq<seq<real>>)
    ensures brk == SSP84.brk
  {
    brk := FirstBrk84();
    brk := Set(brk, 5, 5, 0.24120020561311);
    brk := Set(brk, 6, 6, 0.24120020561311);
    brk := Set(brk, 7, 2, 0.00875532949991);
    brk := Set(brk, 7, 3, 0.06195575835101);
    brk := Set(brk, 7, 5, 0.00951311994571);
    brk := Set(brk, 7, 7, 0.12611877085604);
    TablesEqual(brk, SSP84.brk);
  }

  datatype Option = None | Some(scheme: Scheme)

  /** The scheme of the stepper input, if there is one. */
  function SchemeOf(nstages: nat, order: nat): Option {
    if nstages == 1 && order == 1 then Some(EULER)
    else if nstages == 2 && order == 2 then Some(SSP22)
    else if nstages == 3 && order == 3 then Some(SSP33)
    else if nstages == 4 && order == 3 then Some(SSP43)
    else if nstages == 5 && order == 3 then Some(SSP53)
    else if nstages == 6 && order == 3 then Some(SSP63)
    else if nstages == 7 && order == 3 then Some(SSP73)
    else if nstages == 8 && order == 3 then Some(SSP83)
    else if nstages == 5 && order == 4 then Some(SSP54)
    else if nstages == 6 && order == 4 then Some(SSP64)
    else if nstages == 7 && order == 4 then Some(SSP74)
    else if nstages == 8 && order == 4 then Some(SSP84)
    else None
  }

  /** Fills the tables; a pair of numbers that names no scheme is an error. */
  method InitializeCoefficients(nstages: nat, order: nat)
    returns (known: bool, ark: seq<seq<real>>, brk: seq<seq<real>>)
    ensures known <==> SchemeOf(nstages, order).Some?
    ensures known ==> SchemeOf(nstages, order).scheme == Scheme(nstages, ark, brk)
  {
    known, ark, brk := true, [], [];
    if nstages == 1 && order == 1 {
      ark := ArkEuler();
      brk := BrkEuler();
    } else if nstages == 2 && order == 2 {
      ark := Ark22();
      brk := Brk22();
    } else if nstages == 3 && order == 3 {
      ark := Ark33();
      brk := Brk33();
    } else if nstages == 4 && order == 3 {
      ark := Ark43();
      brk := Brk43();
    } else if nstages == 5 && order == 3 {
      ark := Ark53();
      brk := Brk53();
    } else if nstages == 6 && order == 3 {
      ark := Ark63();
      brk := Brk63();
    } else if nstages == 7 && order == 3 {
      ark := Ark73();
      brk := Brk73();
    } else if nstages == 8 && order == 3 {
      ark := Ark83();
      brk := Brk83();
    } else if nstages == 5 && order == 4 {
      ark := Ark54();
      brk := Brk54();
    } else if nstages == 6 && order == 4 {
      ark := Ark64();
      brk := Brk64();
    } else if nstages == 7 && order == 4 {
      ark := Ark74();
      brk := Brk74();
    } else if nstages == 8 && order == 4 {
      ark := Ark84();
      brk := Brk84();
    } else {
      known := false;
    }
  }
}
