/** constants.ts: the two fixed preset catalogues. */
module Catalog {
  import opened Js
  import opened Types

  const PresetPeople: seq<ImageAsset> := [
    ImageAsset("p1", "https://i.mji.rip/2025/11/19/51362f10bf363524251691516b323f46.png", None),
    ImageAsset("p2", "https://i.mji.rip/2025/11/19/d42af8d2f41175683d1467bc2c857cbe.png", None),
    ImageAsset("p3", "https://p2.itc.cn/q_70/images03/20230712/dfb1cb57f0d045db86efe369415877cf.jpeg", None),
    ImageAsset("p4", "https://i.mji.rip/2025/11/19/665c90d26a3ec857c5c440f4f7da5ed2.png", None),
    ImageAsset("p5", "https://i.mji.rip/2025/11/19/15f1393ca6e0215caf51cf0ecdfe0d5c.png", None),
    ImageAsset("p6", "https://img-s.msn.cn/tenant/amp/entityid/AA1GC7a3.img?w=520&h=780&m=6&x=222&y=183&s=140&d=140", None)
  ]

  const PresetGarments: seq<ImageAsset> := [
    ImageAsset("g1", "https://i.mji.rip/2025/11/19/17aab709b470423cc3e89772afb7da39.png", None),
    ImageAsset("g2", "https://i.mji.rip/2025/11/19/cd8598d0d987b7b5825257924be13bcb.png", None),
    ImageAsset("g3", "https://i.mji.rip/2025/11/19/32426d416cb5508300c530a071ebe497.png", None),
    ImageAsset("g4", "https://i.mji.rip/2025/11/19/6bd78dd58ee4e038e219145822b356e6.png", None),
    ImageAsset("g5", "https://i.mji.rip/2025/11/19/e6dccb4533c546cb42fa564b322d8e84.png", None),
    ImageAsset("g6", "https://i.mji.rip/2025/11/19/a838237484463bfe6ce45a8245587048.p", None)
  ]

  /** Every preset has a non-empty id, so choosing one enables Next, and no
      preset is marked as generated. */
  lemma PresetsWellFormed()
    ensures |PresetPeople| == 6 && |PresetGarments| == 6
    ensures forall i :: 0 <= i < |PresetPeople| ==> PresetPeople[i].id != "" && PresetPeople[i].isGenerated.None?
    ensures forall i :: 0 <= i < |PresetGarments| ==> PresetGarments[i].id != "" && PresetGarments[i].isGenerated.None?
  {
  }
}
