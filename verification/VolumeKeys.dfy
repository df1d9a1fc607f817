/**
 Volume keys and labels (pkg/linode-volumes/utils.go): the string that carries a
 volume's identity from the controller to the node agent.
 */
module VolumeKeys {
  import opened GoText

  const LABEL_LENGTH: nat := 32
  const MAX_PREFIX_LENGTH: nat := 12

  datatype VolumeKey = VolumeKey(id: int, volumeLabel: string) {

    function NormalizedLabel(): string {
      Take(volumeLabel, LABEL_LENGTH)
    }

    function NormalizedLabelWithPrefix(prefix: string): string {
      Take(prefix + NormalizedLabel(), LABEL_LENGTH)
    }

    function Print(): string {
      Itoa(id) + "-" + NormalizedLabel()
    }
  }

  function Parse(key: string): Option<VolumeKey> {
    match Cut(key)
    case None => None
    case Some(parts) =>
      match Atoi(parts.0)
      case None => None
      case Some(id) => Some(VolumeKey(id, parts.1))
  }

  // The node agent's own reading of a volume id (nodeserver_helpers.go).
  function MountSource(volumeId: string): Option<string> {
    match Cut(volumeId)
    case None => None
    case Some(parts) => Some(parts.1)
  }

  // An id string decoded for the controller; `hash` stands for the FNV-1a
  // fallback, whose values play no part in any property here.
  function DecodeVolume(hash: string -> nat, volumeId: string): Option<int> {
    if volumeId == "" then None
    else match Parse(volumeId)
      case Some(key) => Some(key.id)
      case None => Some(hash(volumeId))
  }

  function DecodeNode(hash: string -> nat, nodeId: string): Option<int> {
    if nodeId == "" then None
    else match Atoi(nodeId)
      case Some(id) => Some(id)
      case None => Some(hash(nodeId))
  }

  // A printed key is read back exactly when its id is not negative: the sign of
  // a negative id is taken for the separator.
  lemma KeyRoundTrip(key: VolumeKey)
    requires IsInt(key.id)
    ensures key.id >= 0 ==> Parse(key.Print()) == Some(VolumeKey(key.id, key.NormalizedLabel()))
    ensures key.id < 0 ==> Parse(key.Print()) == None
    ensures key.NormalizedLabel() == if |key.volumeLabel| <= 32 then key.volumeLabel else key.volumeLabel[..32]
  {
    if key.id >= 0 {
      DecimalDigitsReadBack(key.id);
      NoDashInDigits(Itoa(key.id));
      CutOfJoined(Itoa(key.id), key.NormalizedLabel());
      AtoiOfItoa(key.id);
    } else {
      var tail := DecimalDigits(-key.id) + "-" + key.NormalizedLabel();
      assert key.Print() == "" + "-" + tail;
      CutOfJoined("", tail);
    }
  }

  // What was read back prints to the same string again, and every decoder of the
  // string sees the same identity.
  lemma PrintedKeyIsFixedPoint(key: VolumeKey, hash: string -> nat)
    requires 0 <= key.id <= MAX_INT
    ensures Parse(key.Print()).Some? && Parse(key.Print()).value.Print() == key.Print()
    ensures Parse(key.Print()).value.NormalizedLabel() == key.NormalizedLabel()
    ensures DecodeVolume(hash, key.Print()) == Some(key.id)
    ensures MountSource(key.Print()) == Some(key.NormalizedLabel())
  {
    KeyRoundTrip(key);
    MountSourceAgrees(key.Print());
  }

  // The node agent and the key parser read the same label out of every string the
  // parser accepts; the agent accepts exactly the strings that hold a '-'.
  lemma MountSourceAgrees(volumeId: string)
    ensures Parse(volumeId).Some? ==> MountSource(volumeId) == Some(Parse(volumeId).value.volumeLabel)
    ensures MountSource(volumeId).Some? <==> '-' in volumeId
  {
  }

  // The label a volume is created under (controllerserver_helper.go:497-498).
  function LabelFor(prefix: string, name: string): (text: string)
    ensures |text| <= LABEL_LENGTH
  {
    VolumeKey(0, name).NormalizedLabelWithPrefix(prefix)
  }

  lemma LabelForIsTruncation(prefix: string, name: string)
    ensures LabelFor(prefix, name) == Take(prefix + name, LABEL_LENGTH)
  {
    if |name| > LABEL_LENGTH {
      assert (prefix + name)[..LABEL_LENGTH] == (prefix + name[..LABEL_LENGTH])[..LABEL_LENGTH];
    }
  }

  // Two names share a label exactly when they agree on the bytes the prefix leaves
  // room for.
  lemma LabelCollision(prefix: string, a: string, b: string)
    requires |prefix| <= LABEL_LENGTH
    ensures LabelFor(prefix, a) == LabelFor(prefix, b)
      <==> Take(a, LABEL_LENGTH - |prefix|) == Take(b, LABEL_LENGTH - |prefix|)
  {
    LabelForIsPrefixPlus(prefix, a);
    LabelForIsPrefixPlus(prefix, b);
    var ta, tb := Take(a, LABEL_LENGTH - |prefix|), Take(b, LABEL_LENGTH - |prefix|);
    assert (prefix + ta)[|prefix|..] == ta;
    assert (prefix + tb)[|prefix|..] == tb;
  }

  lemma LabelForIsPrefixPlus(prefix: string, name: string)
    requires |prefix| <= LABEL_LENGTH
    ensures LabelFor(prefix, name) == prefix + Take(name, LABEL_LENGTH - |prefix|)
  {
    LabelForIsTruncation(prefix, name);
    var room := LABEL_LENGTH - |prefix|;
    if |name| > room {
      assert (prefix + name)[..LABEL_LENGTH] == prefix + name[..room];
    }
  }

  // Names short enough to leave the label whole never share one.
  lemma ShortNamesKeepLabelsApart(prefix: string, a: string, b: string)
    requires |prefix| <= MAX_PREFIX_LENGTH
    requires |prefix| + |a| <= LABEL_LENGTH && |prefix| + |b| <= LABEL_LENGTH
    ensures LabelFor(prefix, a) == LabelFor(prefix, b) <==> a == b
  {
    LabelCollision(prefix, a, b);
  }

  // When the label of a volume is the very name it was requested under: the
  // condition under which the node agent closes the mapper it opened.
  lemma LabelEqualsName(prefix: string, name: string)
    ensures LabelFor(prefix, name) == name <==>
      |name| <= LABEL_LENGTH && (prefix == "" || (|name| == LABEL_LENGTH && name <= prefix + name))
  {
    LabelForIsTruncation(prefix, name);
    if prefix == "" {
      assert prefix + name == name;
    }
  }
}
