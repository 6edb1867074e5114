/** The fixed catalogs of app.py: animals, adjectives and punchlines. */
module Catalog {
  import opened Strings

  const Animals: seq<string> := [
    "Lion", "Elephant", "Penguin", "Kangaroo", "Giraffe", "Panda", "Koala",
    "Falcon", "Octopus", "Dolphin", "Crocodile", "Armadillo", "Rabbit",
    "Hedgehog", "Otter", "Zebra", "Hippo", "Parrot", "Cheetah", "Meerkat",
    "Chameleon", "Wolf", "Fennec Fox", "Capybara", "Moose"
  ]

  const Adjectives: seq<string> := [
    "Giggly", "Sneaky", "Glittery", "Turbo", "Cosmic", "Whimsical", "Neon",
    "Electric", "Dizzy", "Galactic"
  ]

  const Punchlines: seq<string> := [
    "Certified chaos on paws",
    "Banned from every zoo talent show",
    "Eats only gourmet snacks and compliments",
    "Can and will steal your picnic blanket",
    "World champion of awkward high-fives",
    "Part-time lifeguard, full-time menace",
    "Possesses questionable superpowers",
    "Believes it invented jazz",
    "Won't share its playlists",
    "Makes its own sound effects"
  ]

  /** No animal is listed twice, so two different positions are two
      different animals. */
  lemma AnimalsAreDistinct()
    ensures |Animals| == 25 && Distinct(Animals)
  {
  }
}
